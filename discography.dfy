/**
 * `AZArtists` (scripts/scrape_discography.py): the artist page address and
 * the parser that rebuilds the album -> songs hierarchy of a discography
 * page. The page is given as plain data: the run of sibling elements, each
 * an album header `div.album` (with its stripped text), a song item whose
 * class holds `listalbum-item` (with its first link, if any), or anything
 * else.
 */
module Discography {
  import opened Wrappers
  import opened Text
  import opened Slug
  import opened Http

  const SiteRoot := "https://www.azlyrics.com/"

  // ---------------------------------------------------------------------
  // Artist page address (`url`)

  /** `artist[0]` on an empty artist segment raises IndexError. */
  datatype UrlError = EmptySegment

  /** `AZArtists.url()`: the artist segment (slug with every "the" removed)
      under a directory named by its first character. */
  function ArtistUrl(artist: string): (r: Result<string, UrlError>)
    ensures r.Failure? <==> ArtistSegment(artist) == []
  {
    var segment := ArtistSegment(artist);
    if segment == [] then Failure(EmptySegment)
    else Success(SiteRoot + [segment[0]] + "/" + segment + PageSuffix)
  }

  /** The address is well formed: after the site root come the directory
      letter, a '/', the segment itself (which starts with that letter)
      and ".html". */
  lemma ArtistUrlShape(artist: string)
    requires ArtistUrl(artist).Success?
    ensures var u := ArtistUrl(artist).value;
      var segment := ArtistSegment(artist);
      |u| == |SiteRoot| + |segment| + 7
      && u[..|SiteRoot|] == SiteRoot
      && u[|SiteRoot|] == u[|SiteRoot| + 2] == segment[0]
      && u[|SiteRoot| + 1] == '/'
      && u[|SiteRoot| + 2..|u| - 5] == segment
      && u[|u| - 5..] == PageSuffix
  {
  }

  /** Two artists share an address only when their artist segments agree:
      the address determines the segment. */
  lemma ArtistUrlInjective(artist1: string, artist2: string)
    requires ArtistUrl(artist1).Success? && ArtistUrl(artist2).Success?
    requires ArtistUrl(artist1).value == ArtistUrl(artist2).value
    ensures ArtistSegment(artist1) == ArtistSegment(artist2)
  {
    ArtistUrlShape(artist1);
    ArtistUrlShape(artist2);
  }

  /** 'All Time Low' gets .../a/alltimelow.html. */
  lemma ArtistUrlExample(a1: string, a2: string, a3: string)
    requires a1 == "All" && a2 == " Time" && a3 == " Low"
    ensures ArtistUrl(a1 + a2 + a3) == Success("https://www.azlyrics.com/a/alltimelow.html")
  {
    ArtistTestName(a1, a2, a3);
    ArtistSegmentWithoutThe(a1 + a2 + a3);
    AddressOfSegment(ArtistSegment(a1 + a2 + a3));
  }

  lemma AddressOfSegment(segment: string)
    requires segment == "alltimelow"
    ensures SiteRoot + [segment[0]] + "/" + segment + PageSuffix == "https://www.azlyrics.com/a/alltimelow.html"
  {
  }

  /** An artist called 'The' has an empty segment: `url()` raises. */
  lemma ArtistUrlOfThe(name: string)
    requires name == "The"
    ensures ArtistUrl(name) == Failure(EmptySegment)
  {
    SegmentOfThe(name);
  }

  // ---------------------------------------------------------------------
  // Page model

  /** The first `<a>` of a song item: its `href` attribute (None when
      absent) and its stripped text. */
  datatype Link = Link(href: Option<string>, text: string)

  datatype Sibling =
    | Marker(text: string)       // a `div.album`, with `get_text(strip=True)`
    | Item(link: Option<Link>)   // a sibling whose class holds `listalbum-item`
    | Other                      // any other sibling

  /** An album record: `release_year` is either absent (the "Singles"
      record has no such key) or present, holding a year or None. */
  datatype ReleaseYear = NoKey | Key(year: Option<string>)

  datatype Album = Album(title: string, releaseYear: ReleaseYear, songs: seq<string>)

  // ---------------------------------------------------------------------
  // Release year: `re.search(r"\((\d{4})\)", text)`

  /** A parenthesised four-digit year starts at index `p` of `s`. */
  predicate YearAt(s: string, p: int) {
    0 <= p && p + 6 <= |s| && s[p] == '(' && s[p + 5] == ')'
    && IsDigit(s[p + 1]) && IsDigit(s[p + 2]) && IsDigit(s[p + 3]) && IsDigit(s[p + 4])
  }

  /** The index of the leftmost `(dddd)` of `s`, or -1. */
  function YearIndex(s: string): (p: int)
    ensures p == -1 || 0 <= p <= |s| - 6
    decreases |s|
  {
    if |s| < 6 then -1
    else if YearAt(s, 0) then 0
    else
      var k := YearIndex(s[1..]);
      if k == -1 then -1 else k + 1
  }

  /** `match.group(1)`: the four digits inside the leftmost `(dddd)`, or
      None when there is none. */
  function FirstYear(s: string): (year: Option<string>)
    ensures year.Some? ==> |year.value| == 4
  {
    var p := YearIndex(s);
    if p == -1 then None else Some(s[p + 1..p + 5])
  }

  lemma YearAtShift(s: string, p: nat)
    requires |s| > 0
    ensures YearAt(s[1..], p) <==> YearAt(s, p + 1)
  {
  }

  /** The search finds the leftmost year: -1 exactly when no `(dddd)`
      occurs, otherwise an occurrence with none before it. */
  lemma {:induction false} YearIndexSpec(s: string)
    ensures YearIndex(s) == -1 ==> forall q :: !YearAt(s, q)
    ensures YearIndex(s) != -1 ==>
      YearAt(s, YearIndex(s)) && forall q :: 0 <= q < YearIndex(s) ==> !YearAt(s, q)
    decreases |s|
  {
    if |s| >= 6 && !YearAt(s, 0) {
      var t := s[1..];
      YearIndexSpec(t);
      var k := YearIndex(t);
      forall q | 0 < q && (k == -1 || q <= k) ensures !YearAt(s, q) {
        YearAtShift(s, q - 1);
      }
      if k != -1 {
        YearAtShift(s, k);
      }
    }
  }

  /** A year found is four ASCII digits taken from a `(dddd)` of the text,
      the leftmost one; None exactly when the text has none. */
  lemma FirstYearSpec(s: string)
    ensures FirstYear(s).None? <==> forall q :: !YearAt(s, q)
    ensures FirstYear(s).Some? ==>
      |FirstYear(s).value| == 4
      && (forall k :: 0 <= k < 4 ==> IsDigit(FirstYear(s).value[k]))
      && s[YearIndex(s)..YearIndex(s) + 6] == "(" + FirstYear(s).value + ")"
      && forall q :: 0 <= q < YearIndex(s) ==> !YearAt(s, q)
  {
    YearIndexSpec(s);
    if YearIndex(s) == -1 {
      assert FirstYear(s).None?;
    } else {
      var p := YearIndex(s);
      assert !(forall q :: !YearAt(s, q)) by {
        assert YearAt(s, p);
      }
      var y := s[p + 1..p + 5];
      var w := "(" + y + ")";
      forall k | 0 <= k < 6 ensures s[p..p + 6][k] == w[k] {
        if 0 < k < 5 {
          assert w[k] == y[k - 1];
        }
      }
      assert s[p..p + 6] == w;
    }
  }

  // ---------------------------------------------------------------------
  // Album title: `re.sub(r"\(\d{4}\)", "", text.split(':')[1].strip().replace('"',''))`

  /** `re.sub(r"\(\d{4}\)", "", s)`: one left-to-right pass deleting the
      non-overlapping `(dddd)` groups. */
  function RemoveYears(s: string): (r: string)
    ensures |r| <= |s|
    decreases |s|
  {
    if |s| < 6 then s
    else if YearAt(s, 0) then RemoveYears(s[6..])
    else [s[0]] + RemoveYears(s[1..])
  }

  /** Deleting years only removes characters. */
  lemma {:induction false} RemoveYearsShrinks(s: string)
    ensures |RemoveYears(s)| <= |s|
    ensures multiset(RemoveYears(s)) <= multiset(s)
    decreases |s|
  {
    if |s| >= 6 {
      if YearAt(s, 0) {
        assert s == s[..6] + s[6..];
        RemoveYearsShrinks(s[6..]);
      } else {
        assert s == [s[0]] + s[1..];
        RemoveYearsShrinks(s[1..]);
      }
    }
  }

  /** A string without any `(dddd)` comes back unchanged. */
  lemma {:induction false} RemoveYearsAbsent(s: string)
    requires forall p :: !YearAt(s, p)
    ensures RemoveYears(s) == s
    decreases |s|
  {
    if |s| >= 6 {
      assert !YearAt(s, 0);
      forall p: nat ensures !YearAt(s[1..], p) {
        YearAtShift(s, p);
      }
      RemoveYearsAbsent(s[1..]);
      assert s == [s[0]] + s[1..];
    }
  }

  /** The search steps past a character where no year starts. */
  lemma YearScanPast(s: string)
    requires YearIndex(s) != -1 && !YearAt(s, 0)
    ensures YearIndex(s) == YearIndex(s[1..]) + 1 && YearIndex(s[1..]) != -1
    ensures RemoveYears(s) == [s[0]] + RemoveYears(s[1..])
  {
  }

  /** With the leftmost `(dddd)` at `p`, the deletion keeps the text before
      it as it is, drops those six characters and goes on after them. With
      `RemoveYearsAbsent` this determines the result. */
  lemma {:induction false} RemoveYearsFirst(s: string, p: int)
    requires p == YearIndex(s) && p != -1
    ensures p + 6 <= |s| && RemoveYears(s) == s[..p] + RemoveYears(s[p + 6..])
    decreases |s|
  {
    if YearAt(s, 0) {
      assert s[..0] == [] && s[0 + 6..] == s[6..];
    } else {
      YearScanPast(s);
      RemoveYearsFirst(s[1..], p - 1);
      ConsSlices(s, p, p + 6, RemoveYears(s[p + 6..]));
    }
  }

  /** The text up to the first ':' (all of it when there is none). */
  function UpToColon(s: string): string
    decreases |s|
  {
    if s == [] || s[0] == ':' then [] else [s[0]] + UpToColon(s[1..])
  }

  /** The text after the first ':'. */
  function AfterColon(s: string): string
    requires ':' in s
    decreases |s|
  {
    if s[0] == ':' then s[1..] else AfterColon(s[1..])
  }

  /** `text.split(':')[1]`: the field between the first and the second ':'. */
  function SecondField(text: string): string
    requires ':' in text
  {
    UpToColon(AfterColon(text))
  }

  lemma {:induction false} UpToColonSpec(s: string)
    ensures ':' !in UpToColon(s)
    ensures |UpToColon(s)| <= |s|
    ensures UpToColon(s) == s[..|UpToColon(s)|]
    decreases |s|
  {
    if s != [] && s[0] != ':' {
      UpToColonSpec(s[1..]);
    }
  }

  lemma {:induction false} AfterColonSpec(s: string)
    requires ':' in s
    ensures |AfterColon(s)| < |s| && AfterColon(s) == s[|s| - |AfterColon(s)|..]
    ensures s[|s| - |AfterColon(s)| - 1] == ':'
    ensures ':' !in s[..|s| - |AfterColon(s)| - 1]
    decreases |s|
  {
    if s[0] != ':' {
      AfterColonSpec(s[1..]);
    }
  }

  /** The second field holds no ':' and is a piece of the text: exactly
      the characters between the first ':' and the next one (or the end). */
  lemma SecondFieldSpec(text: string)
    requires ':' in text
    ensures ':' !in SecondField(text)
    ensures var i, f := |text| - |AfterColon(text)|, SecondField(text);
      0 < i && text[i - 1] == ':' && ':' !in text[..i - 1]
      && i + |f| <= |text| && f == text[i..i + |f|]
      && (i + |f| == |text| || text[i + |f|] == ':')
  {
    var rest := AfterColon(text);
    AfterColonSpec(text);
    UpToColonSpec(rest);
    var i := |text| - |rest|;
    var f := SecondField(text);
    assert f == rest[..|f|];
    assert rest[..|f|] == text[i..i + |f|];
    if |f| < |rest| {
      assert UpToColon(rest) == rest[..|f|];
      UpToColonStops(rest);
    }
  }

  /** The field stops at a ':' unless it runs to the end. */
  lemma {:induction false} UpToColonStops(s: string)
    requires |UpToColon(s)| < |s|
    ensures s[|UpToColon(s)|] == ':'
    decreases |s|
  {
    if s != [] && s[0] != ':' {
      UpToColonStops(s[1..]);
    }
  }

  /** The title of an album header: the second field, stripped, without
      its '"' and its `(dddd)` groups; never longer than that field. */
  function Title(text: string): (title: string)
    requires ':' in text
    ensures |title| <= |SecondField(text)|
  {
    RemoveYears(RemoveAll(Strip(SecondField(text)), "\""))
  }

  /** A title holds no '"' and no ':', every character of it comes from the
      header text, and a field with no '"' and no `(dddd)` is the title
      once stripped. */
  lemma TitleSpec(text: string)
    requires ':' in text
    ensures '"' !in Title(text)
    ensures ':' !in Title(text)
    ensures multiset(Title(text)) <= multiset(text)
    ensures '"' !in SecondField(text) && (forall p :: !YearAt(SecondField(text), p)) ==>
      Title(text) == Strip(SecondField(text))
  {
    var field := SecondField(text);
    FieldMultiset(text);
    var stripped := Strip(field);
    StripMultiset(field);
    var unquoted := RemoveAll(stripped, "\"");
    RemoveAllShrinks(stripped, "\"");
    RemoveAllChar(stripped, '"');
    RemoveYearsShrinks(unquoted);
    SubMultiset(Title(text), unquoted, stripped);
    SubMultiset(Title(text), stripped, field);
    SubMultiset(Title(text), field, text);
    NotInSub(Title(text), unquoted, '"');
    NotInSub(Title(text), field, ':');
    if '"' !in field && forall p :: !YearAt(field, p) {
      TitleOfPlainField(field);
    }
  }

  /** A field with no '"' and no `(dddd)` only loses its outer whitespace. */
  lemma TitleOfPlainField(field: string)
    requires '"' !in field && forall p :: !YearAt(field, p)
    ensures RemoveYears(RemoveAll(Strip(field), "\"")) == Strip(field)
  {
    var stripped := Strip(field);
    var i, j :| 0 <= i <= j <= |field| && stripped == field[i..j];
    SliceMultiset(field, i, j);
    NotInSub(stripped, field, '"');
    RemoveCharAbsent(stripped, '"');
    NoYearInSlice(field, i, j);
    RemoveYearsAbsent(stripped);
  }

  lemma NoYearInSlice(s: string, i: nat, j: nat)
    requires i <= j <= |s| && forall p :: !YearAt(s, p)
    ensures forall p :: !YearAt(s[i..j], p)
  {
    forall p ensures !YearAt(s[i..j], p) {
      assert YearAt(s[i..j], p) ==> YearAt(s, i + p);
    }
  }

  lemma FieldMultiset(text: string)
    requires ':' in text
    ensures ':' !in SecondField(text)
    ensures multiset(SecondField(text)) <= multiset(text)
  {
    SecondFieldSpec(text);
    var i := |text| - |AfterColon(text)|;
    SliceMultiset(text, i, i + |SecondField(text)|);
  }

  lemma SubMultiset(x: string, y: string, z: string)
    requires multiset(x) <= multiset(y) && multiset(y) <= multiset(z)
    ensures multiset(x) <= multiset(z)
  {
  }

  lemma NotInSub(x: string, y: string, c: char)
    requires multiset(x) <= multiset(y) && c !in y
    ensures c !in x
  {
    assert multiset(x)[c] <= multiset(y)[c] == 0;
  }

  // ---------------------------------------------------------------------
  // Recognising album headers

  /** Lower-casing keeps every ':' where it was and makes no new one, so a
      lower-cased text holding a label with a ':' comes from a text with a
      ':'. */
  lemma ColonFromLower(text: string, pat: string, q: nat)
    requires q < |pat| && pat[q] == ':'
    requires Contains(Lower(text), pat)
    ensures ':' in text
  {
    ContainsIff(Lower(text), pat);
    var i :| OccursAt(Lower(text), pat, i);
    assert Lower(text)[i + q] == pat[q];
  }

  /** What a header opens: an album or EP (`album:` or `ep:` in the
      lower-cased text) with its title and year, else the "Singles" record
      (`other songs:`), else nothing. */
  function Opens(text: string): (record: Option<Album>)
    ensures record.Some? ==> record.value.songs == []
  {
    var lowered := Lower(text);
    if Contains(lowered, "album:") then
      ColonFromLower(text, "album:", 5);
      Some(AlbumHeader(text))
    else if Contains(lowered, "ep:") then
      ColonFromLower(text, "ep:", 2);
      Some(AlbumHeader(text))
    else if Contains(lowered, "other songs:") then
      Some(Album("Singles", NoKey, []))
    else
      None
  }

  /** The record an album or EP header opens. */
  function AlbumHeader(text: string): Album
    requires ':' in text
  {
    Album(Title(text), Key(FirstYear(text)), [])
  }

  /** The two kinds of record a header opens: an album with its title and
      year key when the text names an album or an EP, otherwise "Singles"
      without a year key when it names the other songs; either starts with
      no songs. */
  lemma OpensSpec(text: string)
    ensures Contains(Lower(text), "album:") || Contains(Lower(text), "ep:") ==>
      ':' in text && Opens(text) == Some(Album(Title(text), Key(FirstYear(text)), []))
    ensures (!Contains(Lower(text), "album:") && !Contains(Lower(text), "ep:")
             && Contains(Lower(text), "other songs:")) ==> Opens(text) == Some(Album("Singles", NoKey, []))
    ensures Opens(text).Some? ==>
      (Opens(text).value.releaseYear.NoKey? <==> Opens(text).value == Album("Singles", NoKey, []))
    ensures Opens(text).Some? && Opens(text).value.releaseYear.Key? ==>
      '"' !in Opens(text).value.title && ':' !in Opens(text).value.title
      && Opens(text).value.releaseYear.year == FirstYear(text)
    ensures Opens(text).None? <==>
      !Contains(Lower(text), "album:") && !Contains(Lower(text), "ep:")
      && !Contains(Lower(text), "other songs:")
  {
    var lowered := Lower(text);
    if Contains(lowered, "album:") || Contains(lowered, "ep:") {
      if Contains(lowered, "album:") {
        ColonFromLower(text, "album:", 5);
      } else {
        ColonFromLower(text, "ep:", 2);
      }
      TitleSpec(text);
    }
  }

  // ---------------------------------------------------------------------
  // The album list the parser builds

  /** The song an item contributes: its link text when the link exists and
      has a non-empty `href`, nothing otherwise. */
  function SongOf(link: Option<Link>): (song: seq<string>)
    ensures |song| <= 1
    ensures song != [] <==> link.Some? && link.value.href.Some? && link.value.href.value != ""
    ensures song != [] ==> song == [link.value.text]
  {
    match link
    case Some(Link(Some(href), text)) => if href != "" then [text] else []
    case _ => []
  }

  /** The sibling walk from index `j`: the songs of the items up to the
      first sibling that is not an item. */
  function Run(page: seq<Sibling>, j: nat): (songs: seq<string>)
    ensures j <= |page| ==> |songs| <= |page| - j
    decreases |page| - j
  {
    if j >= |page| || !page[j].Item? then [] else SongOf(page[j].link) + Run(page, j + 1)
  }

  /** `albums[-1]["songs"] += songs`. */
  function AppendToLast(albums: seq<Album>, songs: seq<string>): seq<Album>
    requires albums != []
  {
    var last := albums[|albums| - 1];
    albums[..|albums| - 1] + [last.(songs := last.songs + songs)]
  }

  /** `albums.append(current_album)` when the header opens a record. */
  function Open(albums: seq<Album>, text: string): seq<Album> {
    match Opens(text)
    case Some(header) => albums + [header]
    case None => albums
  }

  /** The album list after the loop has handled the first `n` siblings
      (siblings that are not headers are not visited by the loop). */
  function AlbumsAfter(page: seq<Sibling>, n: nat): (albums: seq<Album>)
    requires n <= |page|
    decreases n
  {
    if n == 0 then []
    else
      var prev := AlbumsAfter(page, n - 1);
      if !page[n - 1].Marker? then prev
      else
        var withHeader := Open(prev, page[n - 1].text);
        if withHeader == [] then [] else AppendToLast(withHeader, Run(page, n))
  }

  /** The list `_parse_albums` hands to `_save_to_file`: one album per
      header naming an album, an EP or the other songs, with its title and
      year key, in document order (see `AlbumHeaders`). */
  function AlbumList(page: seq<Sibling>): (albums: seq<Album>)
    ensures SameHeaders(albums, Headers(page, |page|))
  {
    AlbumHeaders(page, |page|);
    AlbumsAfter(page, |page|)
  }

  // ---------------------------------------------------------------------
  // What the album list promises

  /** The records the recognised headers among the first `n` siblings
      open, in document order, before any song is placed. */
  function Headers(page: seq<Sibling>, n: nat): seq<Album>
    requires n <= |page|
    decreases n
  {
    if n == 0 then []
    else
      var prev := Headers(page, n - 1);
      if page[n - 1].Marker? && Opens(page[n - 1].text).Some? then prev + [Opens(page[n - 1].text).value]
      else prev
  }

  /** Appending songs to the last album changes no title, no year key and
      no other album. */
  lemma AppendToLastSpec(albums: seq<Album>, songs: seq<string>)
    requires albums != []
    ensures var grown := AppendToLast(albums, songs);
      |grown| == |albums|
      && (forall k :: 0 <= k < |albums| ==>
            grown[k].title == albums[k].title && grown[k].releaseYear == albums[k].releaseYear)
      && (forall k :: 0 <= k < |albums| - 1 ==> grown[k] == albums[k])
      && grown[|albums| - 1].songs == albums[|albums| - 1].songs + songs
  {
  }

  /** Two album lists with the same titles and year keys, in order. */
  predicate SameHeaders(xs: seq<Album>, ys: seq<Album>) {
    |xs| == |ys|
    && forall k :: 0 <= k < |xs| ==> xs[k].title == ys[k].title && xs[k].releaseYear == ys[k].releaseYear
  }

  lemma SameHeadersExtend(xs: seq<Album>, ys: seq<Album>, x: Album, y: Album)
    requires SameHeaders(xs, ys) && x.title == y.title && x.releaseYear == y.releaseYear
    ensures SameHeaders(xs + [x], ys + [y])
  {
  }

  lemma SameHeadersTrans(xs: seq<Album>, ys: seq<Album>, zs: seq<Album>)
    requires SameHeaders(xs, ys) && SameHeaders(ys, zs)
    ensures SameHeaders(xs, zs)
  {
  }

  /** One album per recognised header, in header order: the list has
      exactly as many albums as there are headers naming an album, an EP
      or the other songs, with their titles and year keys in that order. */
  lemma {:induction false} AlbumHeaders(page: seq<Sibling>, n: nat)
    requires n <= |page|
    ensures SameHeaders(AlbumsAfter(page, n), Headers(page, n))
    decreases n
  {
    if n > 0 {
      AlbumHeaders(page, n - 1);
      if page[n - 1].Marker? {
        HeadersStep(AlbumsAfter(page, n - 1), Headers(page, n - 1), Opens(page[n - 1].text), Run(page, n));
      }
    }
  }

  /** A header step keeps the albums and the opened headers in step. */
  lemma HeadersStep(albums: seq<Album>, headers: seq<Album>, header: Option<Album>, run: seq<string>)
    requires SameHeaders(albums, headers)
    ensures var withHeader := if header.Some? then albums + [header.value] else albums;
      var grown := if withHeader == [] then [] else AppendToLast(withHeader, run);
      SameHeaders(grown, if header.Some? then headers + [header.value] else headers)
  {
    var withHeader := if header.Some? then albums + [header.value] else albums;
    var hs := if header.Some? then headers + [header.value] else headers;
    if header.Some? {
      SameHeadersExtend(albums, headers, header.value, header.value);
    }
    if withHeader != [] {
      AppendToLastSpec(withHeader, run);
      SameHeadersTrans(AppendToLast(withHeader, run), withHeader, hs);
    }
  }

  /** `ys` is `xs` after some steps of the parser: no album is dropped, the
      albums before the last one of `xs` are untouched, and that last one
      keeps its title and year key while its songs only grow at the end. */
  ghost predicate Grows(xs: seq<Album>, ys: seq<Album>) {
    |xs| <= |ys|
    && (forall k :: 0 <= k < |xs| - 1 ==> ys[k] == xs[k])
    && (xs != [] ==>
          var l := |xs| - 1;
          ys[l].title == xs[l].title && ys[l].releaseYear == xs[l].releaseYear && xs[l].songs <= ys[l].songs)
  }

  lemma GrowsTrans(xs: seq<Album>, ys: seq<Album>, zs: seq<Album>)
    requires Grows(xs, ys) && Grows(ys, zs)
    ensures Grows(xs, zs)
  {
    if xs != [] {
      var l := |xs| - 1;
      if l == |ys| - 1 {
        assert xs[l].songs <= ys[l].songs <= zs[l].songs;
      } else {
        assert zs[l] == ys[l];
      }
    }
  }

  /** One sibling handled. */
  lemma GrowsStep(page: seq<Sibling>, m: nat)
    requires 0 < m <= |page|
    ensures Grows(AlbumsAfter(page, m - 1), AlbumsAfter(page, m))
  {
    var prev := AlbumsAfter(page, m - 1);
    if page[m - 1].Marker? {
      var withHeader := Open(prev, page[m - 1].text);
      if withHeader != [] {
        assert Grows(prev, withHeader) by {
          if Opens(page[m - 1].text).Some? {
            assert withHeader[..|prev|] == prev;
          }
        }
        AppendToLastSpec(withHeader, Run(page, m));
        assert Grows(withHeader, AlbumsAfter(page, m));
        GrowsTrans(prev, withHeader, AlbumsAfter(page, m));
      }
    }
  }

  lemma {:induction false} GrowsAcross(page: seq<Sibling>, n: nat, m: nat)
    requires n <= m <= |page|
    ensures Grows(AlbumsAfter(page, n), AlbumsAfter(page, m))
    decreases m
  {
    if n < m {
      var first, prev, last := AlbumsAfter(page, n), AlbumsAfter(page, m - 1), AlbumsAfter(page, m);
      GrowsAcross(page, n, m - 1);
      GrowsStep(page, m);
      GrowsTrans(first, prev, last);
    }
  }

  /** Song lists only grow at the end, and only the last album's: once an
      album is no longer the last one, it never changes again. */
  lemma EarlierAlbumsFrozen(page: seq<Sibling>, n: nat, m: nat)
    requires n <= m <= |page|
    ensures |AlbumsAfter(page, n)| <= |AlbumsAfter(page, m)|
    ensures forall k :: 0 <= k < |AlbumsAfter(page, n)| - 1 ==> AlbumsAfter(page, m)[k] == AlbumsAfter(page, n)[k]
    ensures AlbumsAfter(page, n) != [] ==>
      var l := |AlbumsAfter(page, n)| - 1;
      var before, after := AlbumsAfter(page, n)[l], AlbumsAfter(page, m)[l];
      after.title == before.title && after.releaseYear == before.releaseYear
      && before.songs <= after.songs
  {
    GrowsAcross(page, n, m);
    GrowsMeans(AlbumsAfter(page, n), AlbumsAfter(page, m));
  }

  lemma GrowsMeans(xs: seq<Album>, ys: seq<Album>)
    requires Grows(xs, ys)
    ensures |xs| <= |ys|
    ensures forall k :: 0 <= k < |xs| - 1 ==> ys[k] == xs[k]
    ensures xs != [] ==>
      var l := |xs| - 1;
      ys[l].title == xs[l].title && ys[l].releaseYear == xs[l].releaseYear && xs[l].songs <= ys[l].songs
  {
  }

  /** Every song in the list, album by album. */
  function AllSongs(albums: seq<Album>): seq<string>
    decreases |albums|
  {
    if albums == [] then [] else AllSongs(albums[..|albums| - 1]) + albums[|albums| - 1].songs
  }

  /** The songs the walks place, in document order: a walk placed after a
      header counts only once some header has opened an album; before
      that its songs are dropped. */
  function Placed(page: seq<Sibling>, n: nat): seq<string>
    requires n <= |page|
    decreases n
  {
    if n == 0 then []
    else Placed(page, n - 1) + (if page[n - 1].Marker? && Headers(page, n) != [] then Run(page, n) else [])
  }

  lemma AllSongsAppendToLast(albums: seq<Album>, songs: seq<string>)
    requires albums != []
    ensures AllSongs(AppendToLast(albums, songs)) == AllSongs(albums) + songs
  {
    var grown := AppendToLast(albums, songs);
    assert grown[..|grown| - 1] == albums[..|albums| - 1];
  }

  lemma AllSongsAppendEmpty(albums: seq<Album>, a: Album)
    requires a.songs == []
    ensures AllSongs(albums + [a]) == AllSongs(albums)
  {
    assert (albums + [a])[..|albums|] == albums;
  }

  /** No song is lost, duplicated or reordered among the albums: read
      album by album, the songs are exactly the walks' songs in document
      order (minus those placed before the first album). */
  lemma {:induction false} SongsInDocumentOrder(page: seq<Sibling>, n: nat)
    requires n <= |page|
    ensures AllSongs(AlbumsAfter(page, n)) == Placed(page, n)
    decreases n
  {
    if n > 0 {
      SongsInDocumentOrder(page, n - 1);
      AlbumHeaders(page, n);
      if page[n - 1].Marker? {
        var prev := AlbumsAfter(page, n - 1);
        var text := page[n - 1].text;
        var withHeader := Open(prev, text);
        OpensSpec(text);
        if Opens(text).Some? {
          AllSongsAppendEmpty(prev, Opens(text).value);
        }
        assert AllSongs(withHeader) == AllSongs(prev);
        if withHeader != [] {
          AllSongsAppendToLast(withHeader, Run(page, n));
          AppendToLastSpec(withHeader, Run(page, n));
        }
      }
    }
  }

  /** The songs a run of siblings contributes, one item at a time. */
  function ItemSongs(run: seq<Sibling>): seq<string>
    decreases |run|
  {
    if run == [] then []
    else (if run[0].Item? then SongOf(run[0].link) else []) + ItemSongs(run[1..])
  }

  /** The walk reads exactly the block of items that follows `j`: it stops
      at the first sibling that is not an item and skips, without stopping,
      the items with no link or no `href`. */
  lemma {:induction false} WalkStopsAtFirstNonItem(page: seq<Sibling>, j: nat, k: nat)
    requires j <= k <= |page|
    requires forall i :: j <= i < k ==> page[i].Item?
    requires k == |page| || !page[k].Item?
    ensures Run(page, j) == ItemSongs(page[j..k])
    ensures |Run(page, j)| <= k - j
    decreases k - j
  {
    if j < k {
      WalkStopsAtFirstNonItem(page, j + 1, k);
      assert page[j..k][1..] == page[j + 1..k];
    }
  }

  /** The walk after a header that opens nothing joins the current album,
      the last one opened. */
  lemma WalkJoinsCurrentAlbum(page: seq<Sibling>, n: nat)
    requires n < |page| && page[n].Marker? && Opens(page[n].text).None?
    requires AlbumsAfter(page, n) != []
    ensures AlbumsAfter(page, n + 1) == AppendToLast(AlbumsAfter(page, n), Run(page, n + 1))
  {
  }

  /** Until a header has opened an album there is no current album, and
      the walks read so far have placed nothing. */
  lemma NothingBeforeFirstAlbum(page: seq<Sibling>, n: nat)
    requires n <= |page| && Headers(page, n) == []
    ensures AlbumsAfter(page, n) == []
  {
    AlbumHeaders(page, n);
  }

  // ---------------------------------------------------------------------
  // Worked examples

  /** Everything after the first ':' of a header whose label has none. */
  lemma {:induction false} AfterColonPrefix(p: string, r: string)
    requires ':' !in p
    ensures ':' in p + ":" + r && AfterColon(p + ":" + r) == r
    decreases |p|
  {
    if p == [] {
      assert p + ":" + r == [':'] + r;
    } else {
      assert (p + ":" + r)[1..] == p[1..] + ":" + r;
      AfterColonPrefix(p[1..], r);
    }
  }

  /** A field with no ':' is kept whole. */
  lemma {:induction false} UpToColonNone(r: string)
    requires ':' !in r
    ensures UpToColon(r) == r
    decreases |r|
  {
    if r != [] {
      UpToColonNone(r[1..]);
    }
  }

  /** The title field of `label:rest` is `rest` when neither part has a ':'. */
  lemma SecondFieldOf(p: string, r: string)
    requires ':' !in p && ':' !in r
    ensures ':' in p + ":" + r && SecondField(p + ":" + r) == r
  {
    AfterColonPrefix(p, r);
    UpToColonNone(r);
  }

  // The header 'Album: "X" (2001)', step by step.
  lemma StripExample()
    ensures Strip(" \"X\" (2001)") == "\"X\" (2001)"
  {
    var t := "\"X\" (2001)";
    assert (" " + t)[1..] == t && StripLeft(t) == t;
    assert StripRight(t) == t;
  }

  /** Deleting the year leaves the space before it in the title. */
  lemma YearsExample()
    ensures RemoveYears("X (2001)") == "X "
  {
  }

  lemma TitleSteps(field: string)
    requires field == " \"X\" (2001)"
    ensures RemoveYears(RemoveAll(Strip(field), "\"")) == "X "
  {
    StripExample();
    assert Strip(field) == "\"" + "X" + "\"" + " (2001)";
    assert Strip(field) == ['"'] + "X" + ['"'] + " (2001)";
    RemoveQuotes("X", " (2001)", '"');
    YearsExample();
  }

  /** 'Album: "X" (2001)' is titled "X ", with the space that stood before
      the year (the code strips before it deletes the year). */
  lemma TitleExample(p: string, r: string)
    requires p == "Album" && r == " \"X\" (2001)"
    ensures ':' in p + ":" + r && Title(p + ":" + r) == "X "
  {
    SecondFieldOf(p, r);
    TitleSteps(r);
  }

  /** The first position where a year pattern sits is the one found. */
  lemma YearIndexOfFirst(s: string, p: nat)
    requires YearAt(s, p) && forall q :: 0 <= q < p ==> !YearAt(s, q)
    ensures YearIndex(s) == p
  {
    YearIndexSpec(s);
  }

  /** The release year of the example header. */
  lemma YearExample(text: string)
    requires text == "Album: \"X\" (2001)"
    ensures FirstYear(text) == Some("2001")
  {
    assert YearAt(text, 11);
    YearIndexOfFirst(text, 11);
    assert text[12..16] == "2001";
  }

  /** The example header names an album. */
  lemma LabelExample(text: string)
    requires text == "Album: \"X\" (2001)"
    ensures Contains(Lower(text), "album:")
  {
    assert Lower(text)[..6] == "album:";
    ContainsIff(Lower(text), "album:");
    assert OccursAt(Lower(text), "album:", 0);
  }

  /** 'Album: "X" (2001)' opens the album "X " of 2001. */
  lemma HeaderExample(text: string)
    requires text == "Album: \"X\" (2001)"
    ensures Opens(text) == Some(Album("X ", Key(Some("2001")), []))
  {
    var p, r := "Album", " \"X\" (2001)";
    assert text == p + ":" + r;
    TitleExample(p, r);
    YearExample(text);
    LabelExample(text);
  }

  // 'Other songs:' names neither an album nor an EP, but the other songs.
  lemma NoAlbumLabel(lower: string)
    requires lower == "other songs:"
    ensures !Contains(lower, "album:")
  {
    ContainsIff(lower, "album:");
    forall i ensures !OccursAt(lower, "album:", i) {
      if 0 <= i && i + 6 <= |lower| {
        assert lower[i..i + 6][0] == lower[i];
      }
    }
  }

  lemma NoEpLabel(lower: string)
    requires lower == "other songs:"
    ensures !Contains(lower, "ep:")
  {
    ContainsIff(lower, "ep:");
    forall i ensures !OccursAt(lower, "ep:", i) {
      if 0 <= i && i + 3 <= |lower| {
        assert lower[i..i + 3][2] == lower[i + 2];
        assert lower[i..i + 3][0] == lower[i];
      }
    }
  }

  lemma OtherSongsLabel(lower: string)
    requires lower == "other songs:"
    ensures Contains(lower, "other songs:")
  {
    ContainsIff(lower, "other songs:");
    assert OccursAt(lower, "other songs:", 0);
  }

  /** 'Other songs:' opens the "Singles" album, which has no year key. */
  lemma SinglesExample(text: string)
    requires text == "Other songs:"
    ensures Opens(text) == Some(Album("Singles", NoKey, []))
  {
    assert Lower(text) == "other songs:";
    NoAlbumLabel(Lower(text));
    NoEpLabel(Lower(text));
    OtherSongsLabel(Lower(text));
  }

  /** A header that opens an album adds it, filled with the walk after it. */
  lemma HeaderStep(page: seq<Sibling>, n: nat, header: Album)
    requires n < |page| && page[n].Marker? && Opens(page[n].text) == Some(header) && header.songs == []
    ensures AlbumsAfter(page, n + 1) == AlbumsAfter(page, n) + [header.(songs := Run(page, n + 1))]
  {
    var prev := AlbumsAfter(page, n);
    var withHeader := prev + [header];
    assert withHeader[..|withHeader| - 1] == prev;
    assert [] + Run(page, n + 1) == Run(page, n + 1);
  }

  /** A sibling that is not a header leaves the list alone. */
  lemma SkipStep(page: seq<Sibling>, n: nat)
    requires n < |page| && !page[n].Marker?
    ensures AlbumsAfter(page, n + 1) == AlbumsAfter(page, n)
  {
  }

  /** The two-header example page: an album header with two songs, then 'Other
      songs:' with one, gives the album and the singles, in that order. */
  lemma ExamplePage(albumHeader: string, singlesHeader: string, page: seq<Sibling>)
    requires albumHeader == "Album: \"X\" (2001)" && singlesHeader == "Other songs:"
    requires page == [Marker(albumHeader), Item(Some(Link(Some("a"), "Song A"))), Item(Some(Link(Some("b"), "Song B"))),
                      Marker(singlesHeader), Item(Some(Link(Some("c"), "Song C")))]
    ensures AlbumList(page) == [Album("X ", Key(Some("2001")), ["Song A", "Song B"]), Album("Singles", NoKey, ["Song C"])]
  {
    var x0, s0 := Album("X ", Key(Some("2001")), []), Album("Singles", NoKey, []);
    HeaderExample(albumHeader);
    SinglesExample(singlesHeader);
    FirstAlbumLaidOut(page, x0);
    SecondAlbumLaidOut(page, x0.(songs := ["Song A", "Song B"]), s0);
  }

  lemma FirstAlbumLaidOut(page: seq<Sibling>, header: Album)
    requires |page| == 5 && page[0].Marker? && page[3].Marker? && header.songs == []
    requires page[1] == Item(Some(Link(Some("a"), "Song A"))) && page[2] == Item(Some(Link(Some("b"), "Song B")))
    requires Opens(page[0].text) == Some(header)
    ensures AlbumsAfter(page, 3) == [header.(songs := ["Song A", "Song B"])]
  {
    FirstWalk(page);
    HeaderStep(page, 0, header);
    SkipStep(page, 1);
    SkipStep(page, 2);
  }

  lemma FirstWalk(page: seq<Sibling>)
    requires |page| == 5 && page[3].Marker?
    requires page[1] == Item(Some(Link(Some("a"), "Song A"))) && page[2] == Item(Some(Link(Some("b"), "Song B")))
    ensures Run(page, 1) == ["Song A", "Song B"]
  {
    assert Run(page, 3) == [];
    assert Run(page, 2) == ["Song B"];
  }

  lemma SecondAlbumLaidOut(page: seq<Sibling>, first: Album, header: Album)
    requires |page| == 5 && page[3].Marker? && page[4] == Item(Some(Link(Some("c"), "Song C"))) && header.songs == []
    requires Opens(page[3].text) == Some(header)
    requires AlbumsAfter(page, 3) == [first]
    ensures AlbumList(page) == [first, header.(songs := ["Song C"])]
  {
    assert Run(page, 5) == [];
    assert Run(page, 4) == ["Song C"];
    HeaderStep(page, 3, header);
    SkipStep(page, 4);
  }

  // ---------------------------------------------------------------------
  // The parser, imperatively

  /** One album dictionary: its title and year key are fixed when it is
      created; its song list grows in place. */
  class AlbumRecord {
    const title: string
    const releaseYear: ReleaseYear
    var songs: seq<string>

    constructor (header: Album)
      ensures title == header.title && releaseYear == header.releaseYear && songs == []
    {
      title := header.title;
      releaseYear := header.releaseYear;
      songs := [];
    }

    function View(): Album
      reads this
    {
      Album(title, releaseYear, songs)
    }

    /** `current_album["songs"].append(song)`. */
    method AppendSong(song: string)
      modifies this
      ensures songs == old(songs) + [song]
    {
      songs := songs + [song];
    }
  }

  /** No earlier record is the same object as the last one, so appending
      to the last record leaves every earlier one alone. */
  ghost predicate LastUnshared(records: seq<AlbumRecord>) {
    forall k :: 0 <= k < |records| - 1 ==> records[k] != records[|records| - 1]
  }

  /** No record appears twice. */
  ghost predicate Distinct(records: seq<AlbumRecord>) {
    forall k, m :: 0 <= k < m < |records| ==> records[k] != records[m]
  }

  /** The records hold, in order, the albums of `albums`. */
  ghost predicate Mirrors(records: seq<AlbumRecord>, albums: seq<Album>)
    reads records
  {
    |records| == |albums|
    && forall k :: 0 <= k < |records| ==>
         records[k].title == albums[k].title && records[k].releaseYear == albums[k].releaseYear
         && records[k].songs == albums[k].songs
  }

  /** The inner `while` loop of `_parse_albums`: from sibling `start`,
      append the title of every linked item to `album`, up to the first
      sibling that is not an item. */
  method WalkSongs(page: seq<Sibling>, start: nat, album: AlbumRecord)
    modifies album
    ensures album.songs == old(album.songs) + Run(page, start)
  {
    var j := start;
    while j < |page| && page[j].Item?
      invariant start <= j
      invariant album.songs + Run(page, j) == old(album.songs) + Run(page, start)
      decreases |page| - j
    {
      var link := page[j].link;
      ghost var before := album.songs;
      assert Run(page, j) == SongOf(link) + Run(page, j + 1);
      if link.Some? && link.value.href.Some? && link.value.href.value != "" {
        album.AppendSong(link.value.text);
        assert SongOf(link) == [link.value.text];
        assert album.songs + Run(page, j + 1) == before + ([link.value.text] + Run(page, j + 1));
      } else {
        assert SongOf(link) == [];
        assert Run(page, j) == Run(page, j + 1);
      }
      j := j + 1;
    }
  }

  /** One more sibling handled: a header opens its album (if it names
      one) and the walk after it fills the current album. */
  lemma AlbumsAfterStep(page: seq<Sibling>, i: nat)
    requires i < |page| && page[i].Marker?
    ensures var withHeader := Open(AlbumsAfter(page, i), page[i].text);
      AlbumsAfter(page, i + 1) == (if withHeader == [] then [] else AppendToLast(withHeader, Run(page, i + 1)))
  {
  }

  lemma MirrorsAppend(records: seq<AlbumRecord>, albums: seq<Album>, r: AlbumRecord, a: Album)
    requires Mirrors(records, albums)
    requires r.title == a.title && r.releaseYear == a.releaseYear && r.songs == a.songs
    ensures Mirrors(records + [r], albums + [a])
  {
  }

  lemma MirrorsGrowLast(records: seq<AlbumRecord>, albums: seq<Album>, songs: seq<string>)
    requires |records| == |albums| > 0
    requires forall k :: 0 <= k < |records| - 1 ==>
      records[k].title == albums[k].title && records[k].releaseYear == albums[k].releaseYear
      && records[k].songs == albums[k].songs
    requires var r, last := records[|records| - 1], albums[|albums| - 1];
      r.title == last.title && r.releaseYear == last.releaseYear && r.songs == last.songs + songs
    ensures Mirrors(records, AppendToLast(albums, songs))
  {
  }

  /** Lines 81-101 of the loop body: a header naming an album, an EP or the
      other songs creates a new record, appends it and makes it the
      `current_album`; any other header leaves both alone. */
  method OpenAlbum(text: string, records: seq<AlbumRecord>, current: AlbumRecord?, ghost albums: seq<Album>)
    returns (records': seq<AlbumRecord>, current': AlbumRecord?)
    requires current == null <==> records == []
    requires current != null ==> current == records[|records| - 1]
    requires LastUnshared(records)
    requires Mirrors(records, albums)
    ensures current' == null <==> records' == []
    ensures current' != null ==> current' == records'[|records'| - 1]
    ensures LastUnshared(records')
    ensures Mirrors(records', Open(albums, text))
    ensures records' == records || (records' == records + [current'] && fresh(current'))
  {
    records', current' := records, current;
    var header := Opens(text);
    if header.Some? {
      current' := new AlbumRecord(header.value);
      MirrorsAppend(records, albums, current', header.value);
      records' := records + [current'];
    }
  }

  /** The body of the `for` loop of `_parse_albums`, for one header: open
      the album it names (if any), then walk the following items into the
      current album. */
  method HandleHeader(page: seq<Sibling>, i: nat, records: seq<AlbumRecord>, current: AlbumRecord?)
    returns (records': seq<AlbumRecord>, current': AlbumRecord?)
    requires i < |page| && page[i].Marker?
    requires current == null <==> records == []
    requires current != null ==> current == records[|records| - 1]
    requires LastUnshared(records)
    requires Mirrors(records, AlbumsAfter(page, i))
    modifies records
    ensures current' == null <==> records' == []
    ensures current' != null ==> current' == records'[|records'| - 1]
    ensures LastUnshared(records')
    ensures Mirrors(records', AlbumsAfter(page, i + 1))
    ensures records' == records || (records' == records + [current'] && fresh(current'))
  {
    ghost var withHeader := Open(AlbumsAfter(page, i), page[i].text);
    records', current' := OpenAlbum(page[i].text, records, current, AlbumsAfter(page, i));
    AlbumsAfterStep(page, i);
    if current' != null {
      assert withHeader != [];
      FillLast(page, i + 1, records', withHeader);
    } else {
      assert withHeader == [];
    }
  }

  /** The walk after a header fills the current album, which is the last
      record; the earlier records keep their songs. */
  method FillLast(page: seq<Sibling>, start: nat, records: seq<AlbumRecord>, ghost albums: seq<Album>)
    requires records != [] && LastUnshared(records) && Mirrors(records, albums)
    modifies records[|records| - 1]
    ensures Mirrors(records, AppendToLast(albums, Run(page, start)))
  {
    var last := records[|records| - 1];
    WalkSongs(page, start, last);
    assert forall k :: 0 <= k < |records| - 1 ==> records[k].songs == old(records[k].songs);
    MirrorsGrowLast(records, albums, Run(page, start));
  }

  /** `_parse_albums`: the loop over the header divs (the siblings that
      are not headers are skipped). The records returned are new, pairwise
      distinct, and hold exactly `AlbumList(page)`. */
  method ParseAlbums(page: seq<Sibling>) returns (records: seq<AlbumRecord>)
    ensures forall k :: 0 <= k < |records| ==> fresh(records[k])
    ensures Distinct(records)
    ensures Mirrors(records, AlbumList(page))
  {
    records := [];
    var current: AlbumRecord? := null;
    for i := 0 to |page|
      invariant current == null <==> records == []
      invariant current != null ==> current == records[|records| - 1]
      invariant forall k :: 0 <= k < |records| ==> fresh(records[k])
      invariant Distinct(records) && LastUnshared(records)
      invariant Mirrors(records, AlbumsAfter(page, i))
    {
      if page[i].Marker? {
        records, current := HandleHeader(page, i, records, current);
      } else {
        SkipStep(page, i);
      }
    }
  }

  /** The values the records hold, for saving. */
  method Snapshot(records: seq<AlbumRecord>) returns (albums: seq<Album>)
    ensures |albums| == |records|
    ensures forall k :: 0 <= k < |records| ==> albums[k] == records[k].View()
  {
    albums := [];
    for k := 0 to |records|
      invariant |albums| == k
      invariant forall m :: 0 <= m < k ==> albums[m] == records[m].View()
    {
      albums := albums + [records[k].View()];
    }
  }

  datatype DiscographyOutcome =
    | UrlRaised(error: UrlError)   // `url()` raises before the request
    | NoneReturned                 // the request failed or was refused
    | Saved(albums: seq<Album>)    // the list handed to `_save_to_file`

  /** `AZArtists.open_url`, with the fetch of the artist address as a
      parameter. */
  method OpenUrl(artist: string, fetch: string -> Fetch<seq<Sibling>>) returns (outcome: DiscographyOutcome)
    ensures ArtistUrl(artist).Failure? <==> outcome == UrlRaised(EmptySegment)
    ensures ArtistUrl(artist).Success? ==>
      var response := fetch(ArtistUrl(artist).value);
      (!Fetched(response) <==> outcome == NoneReturned)
      && (Fetched(response) ==> outcome == Saved(AlbumList(response.page)))
  {
    var url := ArtistUrl(artist);
    if url.Failure? {
      return UrlRaised(url.error);
    }
    var response := fetch(url.value);
    if !Fetched(response) {
      return NoneReturned;
    }
    var records := ParseAlbums(response.page);
    var albums := Snapshot(records);
    outcome := Saved(albums);
  }
}
