/**
 * The fixed regular expressions of the filename parser, each written as a matcher that
 * follows the backtracking order of Python's `re` engine, together with `re.search`
 * (leftmost hit) and `re.sub(pattern, '', s)` (remove every hit, left to right).
 */
module Patterns {
  import opened Text

  datatype Pattern =
    | Year         // \b(19|20)\d{2}\b
    | Resolution   // \b(480p|720p|1080p|1440p|2160p|4K)\b, ignoring case
    | Source       // \b(BluRay|WEBRip|HDRip|DVDRip|CAMRip|WEB-DL|BDRip)\b, ignoring case
    | Codec        // \b(x264|x265|H264|H265|HEVC|AAC|AC3|DTS)\b, ignoring case
    | EpisodeTag   // \bS\d{1,2}E\d{1,2}\b, ignoring case
    | SeasonWord   // \bSeason\s+\d+\b, ignoring case
    | EpisodeWord  // \bEpisode\s+\d+\b, ignoring case

  const ResolutionTags: seq<string> := ["480p", "720p", "1080p", "1440p", "2160p", "4K"]
  const SourceTags: seq<string> := ["BluRay", "WEBRip", "HDRip", "DVDRip", "CAMRip", "WEB-DL", "BDRip"]
  const CodecTags: seq<string> := ["x264", "x265", "H264", "H265", "HEVC", "AAC", "AC3", "DTS"]

  /** A tag that can only ever be matched as a whole word: it starts and ends with a word character. */
  predicate WordTag(t: string) {
    |t| > 0 && IsWordChar(t[0]) && IsWordChar(t[|t| - 1])
  }

  predicate AllWordTags(alts: seq<string>) {
    forall k :: 0 <= k < |alts| ==> WordTag(alts[k])
  }

  lemma {:induction false} SameAsWordChar(c: char, d: char)
    requires SameIgnoringCase(c, d) && IsWordChar(d)
    ensures IsWordChar(c)
  {
  }

  lemma {:induction false} SpellsAt(t: string, lit: string, k: nat)
    requires SpellsIgnoringCase(t, lit) && k < |lit|
    ensures SameIgnoringCase(t[k], lit[k])
    decreases k
  {
    if k > 0 {
      SpellsAt(t[1..], lit[1..], k - 1);
    }
  }

  /** A word tag found in the text begins and ends on word characters of the text. */
  lemma {:induction false} WordTagAt(s: string, i: nat, t: string)
    requires WordTag(t) && TextAt(s, i, t)
    ensures WordAt(s, i) && WordAt(s, i + |t| - 1)
  {
    SpellsAt(s[i..i + |t|], t, 0);
    SameAsWordChar(s[i], t[0]);
    SpellsAt(s[i..i + |t|], t, |t| - 1);
    SameAsWordChar(s[i + |t| - 1], t[|t| - 1]);
  }

  /**
   * `(A1|A2|...)\b` at position `i`: the first alternative, in the listed order, that is spelled
   * at `i` (ignoring case) and is followed by a word boundary; 0 when there is none.
   */
  function AlternativeLen(s: string, i: nat, alts: seq<string>): (n: nat)
    decreases |alts|
  {
    if alts == [] then 0
    else if alts[0] != [] && TextAt(s, i, alts[0]) && AtBoundary(s, i + |alts[0]|) then |alts[0]|
    else AlternativeLen(s, i, alts[1..])
  }

  /** `\b(19|20)\d{2}\b` at `i` (after the opening `\b`). */
  function YearLen(s: string, i: nat): (n: nat)
  {
    if i + 4 <= |s| && (s[i..i + 2] == "19" || s[i..i + 2] == "20") && IsDigit(s[i + 2]) && IsDigit(s[i + 3])
       && AtBoundary(s, i + 4)
    then 4 else 0
  }

  /**
   * `S\d{1,2}E\d{1,2}\b` at `i` with the first digit group taking exactly `d1` digits; the second
   * group tries two digits before one, as the greedy `{1,2}` does.
   */
  function EpisodeTagWith(s: string, i: nat, d1: nat): (n: nat)
  {
    var e := i + 1 + d1;
    if e < |s| && DigitRun(s, i + 1) >= d1 && SameIgnoringCase(s[e], 'E') then
      if DigitRun(s, e + 1) >= 2 && AtBoundary(s, e + 3) then d1 + 4
      else if DigitRun(s, e + 1) >= 1 && AtBoundary(s, e + 2) then d1 + 3
      else 0
    else 0
  }

  /** `S\d{1,2}E\d{1,2}\b` at `i`: the greedy first group tries two digits before one. */
  function EpisodeTagLen(s: string, i: nat): (n: nat)
  {
    if i < |s| && SameIgnoringCase(s[i], 'S') then
      var two := EpisodeTagWith(s, i, 2);
      if two > 0 then two else EpisodeTagWith(s, i, 1)
    else 0
  }

  /**
   * `<word>\s+\d+\b` at `i`. Both runs are taken greedily; giving back a character never helps,
   * because a shorter whitespace run is followed by whitespace instead of a digit and a shorter
   * digit run is followed by a digit, which is no word boundary.
   */
  function WordNumberLen(s: string, i: nat, word: string): (n: nat)
  {
    var j := i + |word|;
    if TextAt(s, i, word) then
      var sp := SpaceRun(s, j);
      var d := DigitRun(s, j + sp);
      if sp > 0 && d > 0 && AtBoundary(s, j + sp + d) then |word| + sp + d else 0
    else 0
  }

  predicate IsWordHit(s: string, i: nat, n: nat) {
    n > 0 ==> i + n <= |s| && WordAt(s, i) && WordAt(s, i + n - 1) && AtBoundary(s, i + n)
  }

  lemma {:induction false} AlternativeHitIsWholeWord(s: string, i: nat, alts: seq<string>)
    requires AllWordTags(alts)
    ensures IsWordHit(s, i, AlternativeLen(s, i, alts))
    decreases |alts|
  {
    if alts == [] {
    } else if alts[0] != [] && TextAt(s, i, alts[0]) && AtBoundary(s, i + |alts[0]|) {
      WordTagAt(s, i, alts[0]);
    } else {
      assert AllWordTags(alts[1..]) by {
        forall k | 0 <= k < |alts[1..]| ensures WordTag(alts[1..][k]) {
          assert alts[1..][k] == alts[k + 1];
        }
      }
      AlternativeHitIsWholeWord(s, i, alts[1..]);
    }
  }

  lemma ResolutionTagsAreWordTags() ensures AllWordTags(ResolutionTags) {}
  lemma SourceTagsAreWordTags() ensures AllWordTags(SourceTags) {}
  lemma CodecTagsAreWordTags() ensures AllWordTags(CodecTags) {}

  lemma {:induction false} YearHitIsWholeWord(s: string, i: nat)
    ensures IsWordHit(s, i, YearLen(s, i))
  {
  }

  lemma {:induction false} EpisodeTagHitIsWholeWord(s: string, i: nat)
    ensures IsWordHit(s, i, EpisodeTagLen(s, i))
  {
    if i < |s| && SameIgnoringCase(s[i], 'S') {
      SameAsWordChar(s[i], 'S');
      if EpisodeTagWith(s, i, 2) > 0 {
        EpisodeTagWithEndsInDigit(s, i, 2);
      } else {
        EpisodeTagWithEndsInDigit(s, i, 1);
      }
    }
  }

  lemma {:induction false} EpisodeTagWithEndsInDigit(s: string, i: nat, d1: nat)
    ensures var n := EpisodeTagWith(s, i, d1); n > 0 ==> i + n <= |s| && IsDigit(s[i + n - 1])
  {
    var e := i + 1 + d1;
    if e < |s| && DigitRun(s, i + 1) >= d1 && SameIgnoringCase(s[e], 'E') {
      if DigitRun(s, e + 1) >= 2 && AtBoundary(s, e + 3) {
        DigitRunIsDigits(s, e + 1, e + 2);
      } else if DigitRun(s, e + 1) >= 1 && AtBoundary(s, e + 2) {
        DigitRunIsDigits(s, e + 1, e + 1);
      }
    }
  }

  lemma {:induction false} WordNumberHitIsWholeWord(s: string, i: nat, word: string)
    requires WordTag(word)
    ensures IsWordHit(s, i, WordNumberLen(s, i, word))
  {
    var n := WordNumberLen(s, i, word);
    if n > 0 {
      var j := i + |word|;
      var sp := SpaceRun(s, j);
      var d := DigitRun(s, j + sp);
      WordTagAt(s, i, word);
      DigitRunIsDigits(s, j + sp, j + sp + d - 1);
    }
  }

  /**
   * The length of the match the regular expression `p` finds when the search tries position `i`,
   * or 0 when it finds none there. Every pattern opens with `\b`.
   */
  function MatchLen(p: Pattern, s: string, i: nat): (n: nat)
    ensures n > 0 ==> i + n <= |s|
  {
    if AtBoundary(s, i) then HitIsWholeWord(p, s, i); HitLen(p, s, i) else 0
  }

  /** The length of the hit of `p` at `i` once the opening `\b` has been passed: the seven matchers. */
  function HitLen(p: Pattern, s: string, i: nat): (n: nat)
  {
    match p
    case Year => YearLen(s, i)
    case Resolution => AlternativeLen(s, i, ResolutionTags)
    case Source => AlternativeLen(s, i, SourceTags)
    case Codec => AlternativeLen(s, i, CodecTags)
    case EpisodeTag => EpisodeTagLen(s, i)
    case SeasonWord => WordNumberLen(s, i, "Season")
    case EpisodeWord => WordNumberLen(s, i, "Episode")
  }

  /** Every pattern's hit runs from a word character to a word character and ends on a `\b`. */
  lemma {:induction false} HitIsWholeWord(p: Pattern, s: string, i: nat)
    ensures IsWordHit(s, i, HitLen(p, s, i))
  {
    match p
    case Year => YearHitIsWholeWord(s, i);
    case Resolution => ResolutionTagsAreWordTags(); AlternativeHitIsWholeWord(s, i, ResolutionTags);
    case Source => SourceTagsAreWordTags(); AlternativeHitIsWholeWord(s, i, SourceTags);
    case Codec => CodecTagsAreWordTags(); AlternativeHitIsWholeWord(s, i, CodecTags);
    case EpisodeTag => EpisodeTagHitIsWholeWord(s, i);
    case SeasonWord => WordNumberHitIsWholeWord(s, i, "Season");
    case EpisodeWord => WordNumberHitIsWholeWord(s, i, "Episode");
  }

  /**
   * Every hit of every pattern is a whole word: it starts and ends on a word character, and no
   * word character touches it on either side.
   */
  lemma {:induction false} MatchIsWholeWord(p: Pattern, s: string, i: nat)
    requires MatchLen(p, s, i) > 0
    ensures i + MatchLen(p, s, i) <= |s|
    ensures IsWordChar(s[i]) && IsWordChar(s[i + MatchLen(p, s, i) - 1])
    ensures i == 0 || !IsWordChar(s[i - 1])
    ensures i + MatchLen(p, s, i) == |s| || !IsWordChar(s[i + MatchLen(p, s, i)])
  {
    var n := MatchLen(p, s, i);
    assert AtBoundary(s, i);
    HitIsWholeWord(p, s, i);
    assert n == HitLen(p, s, i);
    WordHitEnds(s, i, n);
  }

  lemma {:induction false} WordHitEnds(s: string, i: nat, n: nat)
    requires n > 0 && IsWordHit(s, i, n)
    ensures i + n <= |s| && IsWordChar(s[i]) && IsWordChar(s[i + n - 1])
    ensures i + n == |s| || !IsWordChar(s[i + n])
  {
  }

  /** Where and how long a hit is. */
  datatype Hit = Hit(start: nat, len: nat)

  /** No position of `s` (including the end) starts a hit of `p`. */
  predicate NoMatch(p: Pattern, s: string) {
    forall j :: 0 <= j <= |s| ==> MatchLen(p, s, j) == 0
  }

  /** `i` is the leftmost position of `s` that starts a hit of `p`. */
  predicate FirstMatchAt(p: Pattern, s: string, i: nat) {
    i <= |s| && MatchLen(p, s, i) > 0 && forall j :: 0 <= j < i ==> MatchLen(p, s, j) == 0
  }

  /** The text a hit at `i` covers: what `match.group(0)` returns. */
  function MatchedText(p: Pattern, s: string, i: nat): string
    requires i <= |s|
  {
    s[i..i + MatchLen(p, s, i)]
  }

  /**
   * What the regex engine finds at each position of `s`, from 0 to `|s|` inclusive: the length of
   * the hit starting there, 0 for none. `re.search` and `re.sub` only ever consult this table.
   */
  predicate IsHitTable(m: seq<nat>, s: string) {
    |m| == |s| + 1 && forall j :: 0 <= j < |m| ==> j + m[j] <= |s|
  }

  function HitTable(p: Pattern, s: string): (m: seq<nat>)
    ensures IsHitTable(m, s)
    ensures forall j :: 0 <= j < |m| ==> m[j] == MatchLen(p, s, j)
  {
    seq(|s| + 1, j requires 0 <= j <= |s| => MatchLen(p, s, j))
  }

  /** `re.search` started at `from`: the first position at or after `from` with a hit. */
  function SearchFrom(m: seq<nat>, from: nat): (h: Option<Hit>)
    requires from < |m|
    ensures h.Some? ==> from <= h.value.start < |m| && 0 < h.value.len == m[h.value.start]
    ensures h.Some? ==> forall j :: from <= j < h.value.start ==> m[j] == 0
    ensures h.None? ==> forall j :: from <= j < |m| ==> m[j] == 0
    decreases |m| - from
  {
    if m[from] > 0 then Some(Hit(from, m[from]))
    else if from == |m| - 1 then None
    else SearchFrom(m, from + 1)
  }

  /** `re.search(p, s)`: the leftmost hit, if any. */
  function Search(p: Pattern, s: string): (h: Option<Hit>)
    ensures h.None? <==> NoMatch(p, s)
    ensures h.Some? ==> FirstMatchAt(p, s, h.value.start) && h.value.len == MatchLen(p, s, h.value.start)
    ensures forall i :: FirstMatchAt(p, s, i) ==> h == Some(Hit(i, MatchLen(p, s, i)))
  {
    SearchFrom(HitTable(p, s), 0)
  }

  /** `re.sub(p, '', s)` on the part of `s` from `i` on, scanning one position at a time. */
  function RemoveFrom(s: string, m: seq<nat>, i: nat): (r: string)
    requires IsHitTable(m, s) && i <= |s|
    ensures |r| <= |s| - i
    decreases |s| - i
  {
    if i == |s| then []
    else if m[i] > 0 then RemoveFrom(s, m, i + m[i])
    else [s[i]] + RemoveFrom(s, m, i + 1)
  }

  /**
   * `re.sub(p, '', s)`: every non-overlapping hit, taken left to right, deleted. With no hit the
   * text is unchanged.
   */
  function RemoveAll(p: Pattern, s: string): (r: string)
    ensures |r| <= |s|
  {
    RemoveFrom(s, HitTable(p, s), 0)
  }

  /** With no hit anywhere, `re.sub` gives the text back unchanged. */
  lemma {:induction false} RemoveAllWithoutMatch(p: Pattern, s: string)
    ensures NoMatch(p, s) ==> RemoveAll(p, s) == s
  {
    var m := HitTable(p, s);
    if NoMatch(p, s) {
      forall j | 0 <= j < |m| ensures m[j] == 0 {
        assert MatchLen(p, s, j) == 0;
      }
      RemoveFromNoHit(s, m, 0);
      assert s[0..] == s;
    }
  }

  /**
   * `re.sub` keeps the text before the leftmost hit, drops the hit and goes on removing from its
   * end. `SearchFrom(HitTable(p, s), 0)` is the leftmost hit: `Search(p, s)` is defined as it.
   */
  lemma {:induction false} RemoveAllSplicesFirstHit(p: Pattern, s: string)
    ensures SearchFrom(HitTable(p, s), 0).Some? ==>
              var h := SearchFrom(HitTable(p, s), 0).value;
              h.start + h.len <= |s| && RemoveAll(p, s) == s[..h.start] + RemoveFrom(s, HitTable(p, s), h.start + h.len)
  {
    RemoveScanSplices(s, HitTable(p, s));
  }

  /** The whole scan, from position 0, in terms of the first hit of the table. */
  lemma {:induction false} RemoveScanSplices(s: string, m: seq<nat>)
    requires IsHitTable(m, s)
    ensures SearchFrom(m, 0).None? ==> RemoveFrom(s, m, 0) == s
    ensures SearchFrom(m, 0).Some? ==>
              var h := SearchFrom(m, 0).value;
              h.start + h.len <= |s| && RemoveFrom(s, m, 0) == s[..h.start] + RemoveFrom(s, m, h.start + h.len)
  {
    match SearchFrom(m, 0)
    case None =>
      RemoveFromNoHit(s, m, 0);
      assert s[0..] == s;
    case Some(h) =>
      RemoveFromFirstHit(s, m, 0, h.start);
      assert s[0..h.start] == s[..h.start];
  }

  /** With no hit from `i` on, the scan keeps the rest of the text. */
  lemma {:induction false} RemoveFromNoHit(s: string, m: seq<nat>, i: nat)
    requires IsHitTable(m, s) && i <= |s|
    requires forall j :: i <= j < |m| ==> m[j] == 0
    ensures RemoveFrom(s, m, i) == s[i..]
    decreases |s| - i
  {
    if i < |s| {
      RemoveFromNoHit(s, m, i + 1);
      assert [s[i]] + s[i + 1..] == s[i..];
    }
  }

  /** The scan keeps the text before the first hit from `i` on, drops the hit, and carries on. */
  lemma {:induction false} RemoveFromFirstHit(s: string, m: seq<nat>, i: nat, k: nat)
    requires IsHitTable(m, s) && i <= k <= |s| && m[k] > 0
    requires forall j :: i <= j < k ==> m[j] == 0
    ensures RemoveFrom(s, m, i) == s[i..k] + RemoveFrom(s, m, k + m[k])
    decreases k - i
  {
    if i < k {
      assert RemoveFrom(s, m, i) == [s[i]] + RemoveFrom(s, m, i + 1);
      RemoveFromFirstHit(s, m, i + 1, k);
      assert [s[i]] + s[i + 1..k] == s[i..k];
    } else {
      assert k < |s|;
      assert RemoveFrom(s, m, k) == RemoveFrom(s, m, k + m[k]);
      assert s[i..k] == [];
    }
  }

  /**
   * The scan agrees with the way `re.sub` is defined: search for the leftmost hit, keep the text
   * before it, drop the hit, and carry on from its end.
   */
  lemma {:induction false} RemoveFromSplicesSearch(s: string, m: seq<nat>, i: nat)
    requires IsHitTable(m, s) && i <= |s|
    ensures RemoveFrom(s, m, i) == match SearchFrom(m, i)
                                   case None => s[i..]
                                   case Some(h) => s[i..h.start] + RemoveFrom(s, m, h.start + h.len)
  {
    match SearchFrom(m, i)
    case None => RemoveFromNoHit(s, m, i);
    case Some(h) => RemoveFromFirstHit(s, m, i, h.start);
  }
}
