/**
 * The name normaliser shared by `AZLyrics._parse_artist`, `AZLyrics._parse_song`
 * and `AZArtists._parse_artist` (the three are the same expression), and the
 * extra `replace('the', '')` both URL builders apply to the artist slug only.
 */
module Slug {
  import opened Text

  /** A character the regular expression class `[a-z0-9\s]` matches: what
      `re.sub(r'[^a-z0-9\s]', '', ...)` keeps. */
  predicate InClass(c: char) {
    IsLowerAlnum(c) || IsSpace(c)
  }

  /** A character a slug may hold: the class above, minus the plain space
      that `replace(' ', '')` deleted first. */
  predicate IsSlugChar(c: char) {
    c != ' ' && InClass(c)
  }

  /** `re.sub(r'[^a-z0-9\s]', '', s)`: the characters of `s` in the class,
      in order. */
  function KeepClass(s: string): string
    decreases |s|
  {
    if s == [] then [] else (if InClass(s[0]) then [s[0]] else []) + KeepClass(s[1..])
  }

  /** The filter keeps only characters of the class, each taken from its
      input. */
  lemma {:induction false} KeepClassSpec(s: string)
    ensures |KeepClass(s)| <= |s| && multiset(KeepClass(s)) <= multiset(s)
    ensures forall i :: 0 <= i < |KeepClass(s)| ==> InClass(KeepClass(s)[i])
    decreases |s|
  {
    if s != [] {
      assert s == [s[0]] + s[1..];
      KeepClassSpec(s[1..]);
    }
  }

  /** `re.sub(r'[^a-z0-9\s]', '', name.lower().replace(' ', ''))`: no plain
      space is left and every character is a lower-case ASCII letter, a digit
      or other whitespace. */
  function Normalize(name: string): (slug: string)
    ensures |slug| <= |name|
    ensures forall i :: 0 <= i < |slug| ==> IsSlugChar(slug[i])
  {
    var spaced := Lower(name);
    var joined := RemoveAll(spaced, " ");
    RemoveAllShrinks(spaced, " ");
    RemoveAllChar(spaced, ' ');
    var slug := KeepClass(joined);
    KeepClassSpec(joined);
    assert forall i :: 0 <= i < |slug| ==> slug[i] in multiset(joined);
    slug
  }

  /** The artist path segment, `Normalize(name).replace('the', '')`: still
      made of slug characters, never longer than the slug, and at least one
      "the" shorter when the slug holds one. */
  function ArtistSegment(name: string): (segment: string)
    ensures |segment| <= |Normalize(name)|
    ensures Contains(Normalize(name), "the") ==> |segment| <= |Normalize(name)| - 3
    ensures forall i :: 0 <= i < |segment| ==> IsSlugChar(segment[i])
  {
    var slug := Normalize(name);
    var segment := RemoveAll(slug, "the");
    RemoveAllShrinks(slug, "the");
    RemoveAllPresent(slug, "the");
    assert forall i :: 0 <= i < |segment| ==> segment[i] in multiset(slug);
    segment
  }

  /** A slug that holds no "the" is its own artist segment. */
  lemma ArtistSegmentWithoutThe(name: string)
    requires !Contains(Normalize(name), "the")
    ensures ArtistSegment(name) == Normalize(name)
  {
    ContainsIff(Normalize(name), "the");
    RemoveAllAbsent(Normalize(name), "the");
  }

  /** The segment is the slug up to its first "the", then the rest after
      that "the" with its own occurrences deleted. */
  lemma ArtistSegmentFirstThe(name: string)
    requires Contains(Normalize(name), "the")
    ensures var slug, k := Normalize(name), Find(Normalize(name), "the", 0);
      k + 3 <= |slug| && ArtistSegment(name) == slug[..k] + RemoveAll(slug[k + 3..], "the")
  {
    RemoveAllFirst(Normalize(name), "the");
  }

  /** "the" is deleted inside words too: 'Weather' has the segment `wear`. */
  lemma ArtistSegmentWeather(name: string)
    requires name == "Weather"
    ensures Normalize(name) == "weather"
    ensures ArtistSegment(name) == "wear"
  {
    NormalizeWeather(name);
    RemoveTheFromWeather(Normalize(name));
  }

  lemma NormalizeWeather(name: string)
    requires name == "Weather"
    ensures Normalize(name) == "weather"
  {
    NormalizeIsOnePass(name);
    OnePassWord([], 'W', "eather");
    assert [] + ['W'] + "eather" == name;
  }

  lemma RemoveTheFromWeather(slug: string)
    requires slug == "weather"
    ensures RemoveAll(slug, "the") == "wear"
  {
    assert !StartsWith("weather", "the") && !StartsWith("eather", "the");
    assert !StartsWith("ather", "the") && StartsWith("ther", "the");
    assert RemoveAll("ther", "the") == "r";
  }

  /** The segment is not idempotent: deleting "the" from `ththee` joins
      the pieces around it into a new "the", which a second pass deletes. */
  lemma ArtistSegmentNotIdempotent(name: string)
    requires name == "ththee"
    ensures ArtistSegment(name) == "the"
    ensures ArtistSegment(ArtistSegment(name)) == []
  {
    SegmentOfThthee(name);
    SegmentOfThe(ArtistSegment(name));
  }

  lemma SegmentOfThthee(name: string)
    requires name == "ththee"
    ensures ArtistSegment(name) == "the"
  {
    NormalizeIsOnePass(name);
    assert OnePass("ththee") == "ththee";
    RemoveTheFromThthee(Normalize(name));
  }

  lemma RemoveTheFromThthee(slug: string)
    requires slug == "ththee"
    ensures RemoveAll(slug, "the") == "the"
  {
    assert !StartsWith("ththee", "the") && !StartsWith("hthee", "the");
    assert StartsWith("thee", "the");
    assert RemoveAll("thee", "the") == "e";
  }

  /** A name that is just "the" has an empty segment. */
  lemma SegmentOfThe(name: string)
    requires name == "the" || name == "The"
    ensures ArtistSegment(name) == []
  {
    NormalizeThe(name);
    TheRemoved(Normalize(name));
  }

  lemma NormalizeThe(name: string)
    requires name == "the" || name == "The"
    ensures Normalize(name) == "the"
  {
    NormalizeIsOnePass(name);
    if name == "the" {
      OnePassFixes(name);
    } else {
      SlugOfThe();
    }
  }

  lemma TheRemoved(slug: string)
    requires slug == "the"
    ensures RemoveAll(slug, "the") == []
  {
    assert StartsWith("the", "the");
  }

  /** A reference definition in one pass: each character of the name is
      lower-cased and kept exactly when it is a slug character. */
  function SlugChar(c: char): string {
    var l := LowerChar(c);
    if IsSlugChar(l) then [l] else []
  }

  function OnePass(name: string): string
    decreases |name|
  {
    if name == [] then [] else SlugChar(name[0]) + OnePass(name[1..])
  }

  /** The three-pass pipeline of the source (lower, drop spaces, filter the
      class) agrees with the one-pass reference on every name: the slug is
      the lower-cased name with exactly the non-slug characters deleted and
      the order kept. */
  lemma {:induction false} NormalizeIsOnePass(name: string)
    ensures Normalize(name) == OnePass(name)
    decreases |name|
  {
    if name != [] {
      var c, rest := name[0], name[1..];
      var l := LowerChar(c);
      assert Lower(name) == [l] + Lower(rest);
      var s := [l] + Lower(rest);
      assert s[1..] == Lower(rest);
      StartsWithIff(s, " ");
      assert s[..1] == " " <==> l == ' ';
      var joinedRest := RemoveAll(Lower(rest), " ");
      if l == ' ' {
        assert RemoveAll(s, " ") == joinedRest;
      } else {
        assert RemoveAll(s, " ") == [l] + joinedRest;
        assert ([l] + joinedRest)[1..] == joinedRest;
      }
      NormalizeIsOnePass(rest);
    }
  }

  /** The one-pass slug of a concatenation is the concatenation of the
      slugs: names are normalised word by word. */
  lemma {:induction false} OnePassAppend(a: string, b: string)
    ensures OnePass(a + b) == OnePass(a) + OnePass(b)
    decreases |a|
  {
    if a != [] {
      assert (a + b)[0] == a[0];
      assert (a + b)[1..] == a[1..] + b;
      OnePassAppend(a[1..], b);
      assert OnePass(a + b) == SlugChar(a[0]) + OnePass(a[1..] + b);
    } else {
      assert a + b == b;
    }
  }

  /** A three-word name normalises to the three word slugs run together. */
  lemma NormalizeWords(a: string, b: string, c: string)
    ensures Normalize(a + b + c) == OnePass(a) + OnePass(b) + OnePass(c)
  {
    NormalizeIsOnePass(a + b + c);
    OnePassAppend(a + b, c);
    OnePassAppend(a, b);
  }

  /** A string made only of slug characters is its own one-pass slug. */
  lemma {:induction false} OnePassFixes(t: string)
    requires forall i :: 0 <= i < |t| ==> IsSlugChar(t[i])
    ensures OnePass(t) == t
    decreases |t|
  {
    if t != [] {
      assert LowerChar(t[0]) == t[0];
      OnePassFixes(t[1..]);
      assert t == [t[0]] + t[1..];
    }
  }

  /** Normalising a slug again changes nothing. */
  lemma NormalizeIdempotent(name: string)
    ensures Normalize(Normalize(name)) == Normalize(name)
  {
    var slug := Normalize(name);
    NormalizeIsOnePass(slug);
    OnePassFixes(slug);
  }

  predicate IsAsciiAlnum(c: char) {
    ('A' <= c <= 'Z') || ('a' <= c <= 'z') || IsDigit(c)
  }

  lemma {:induction false} OnePassNonEmpty(name: string, k: nat)
    requires k < |name| && IsAsciiAlnum(name[k])
    ensures OnePass(name) != []
    decreases k
  {
    if k > 0 {
      OnePassNonEmpty(name[1..], k - 1);
    }
  }

  /** A name holding an ASCII letter or digit never normalises to the empty
      slug. */
  lemma NormalizeNonEmpty(name: string, k: nat)
    requires k < |name| && IsAsciiAlnum(name[k])
    ensures Normalize(name) != []
  {
    NormalizeIsOnePass(name);
    OnePassNonEmpty(name, k);
  }

  // The names used by tests/test_scraping.py, word by word.

  /** A capitalised word, perhaps after one space: the space goes, the
      capital is lowered, and the rest is kept. */
  lemma OnePassWord(lead: string, c: char, rest: string)
    requires lead == [] || lead == " "
    requires 'A' <= c <= 'Z'
    requires forall i :: 0 <= i < |rest| ==> IsSlugChar(rest[i])
    ensures OnePass(lead + [c] + rest) == [LowerChar(c)] + rest
  {
    var word := [c] + rest;
    assert lead + [c] + rest == lead + word;
    OnePassAppend(lead, word);
    assert word[0] == c && word[1..] == rest;
    OnePassFixes(rest);
  }

  lemma SlugOfAll()
    ensures OnePass("All") == "all"
  {
    OnePassWord([], 'A', "ll");
    assert [] + ['A'] + "ll" == "All";
  }

  lemma SlugOfTime()
    ensures OnePass(" Time") == "time"
  {
    OnePassWord(" ", 'T', "ime");
    assert " " + ['T'] + "ime" == " Time";
  }

  lemma SlugOfLow()
    ensures OnePass(" Low") == "low"
  {
    OnePassWord(" ", 'L', "ow");
    assert " " + ['L'] + "ow" == " Low";
  }

  lemma SlugOfThe()
    ensures OnePass("The") == "the"
  {
    OnePassWord([], 'T', "he");
    assert [] + ['T'] + "he" == "The";
  }

  lemma SlugOfOther()
    ensures OnePass(" Other") == "other"
  {
    OnePassWord(" ", 'O', "ther");
    assert " " + ['O'] + "ther" == " Other";
  }

  lemma SlugOfSide()
    ensures OnePass(" Side") == "side"
  {
    OnePassWord(" ", 'S', "ide");
    assert " " + ['S'] + "ide" == " Side";
  }

  lemma NoTheInArtist(slug: string)
    requires slug == "alltimelow"
    ensures !Contains(slug, "the")
  {
    assert !Contains("alltimelow", "the");
  }

  /** 'All Time Low' normalises to 'alltimelow', which holds no "the". */
  lemma ArtistTestName(a1: string, a2: string, a3: string)
    requires a1 == "All" && a2 == " Time" && a3 == " Low"
    ensures Normalize(a1 + a2 + a3) == "alltimelow"
    ensures !Contains(Normalize(a1 + a2 + a3), "the")
  {
    NormalizeWords(a1, a2, a3);
    SlugOfAll();
    SlugOfTime();
    SlugOfLow();
    NoTheInArtist(Normalize(a1 + a2 + a3));
  }

  /** 'The Other Side' normalises to 'theotherside': the song slug keeps its
      "the". */
  lemma SongTestName(s1: string, s2: string, s3: string)
    requires s1 == "The" && s2 == " Other" && s3 == " Side"
    ensures Normalize(s1 + s2 + s3) == "theotherside"
  {
    NormalizeWords(s1, s2, s3);
    SlugOfThe();
    SlugOfOther();
    SlugOfSide();
  }
}
