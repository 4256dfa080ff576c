/**
 * `AZLyrics` (scripts/scrape_lyrics.py): the song page address, the
 * heuristic that picks the lyrics block, and the genre, album and writer
 * extractors. A parsed page is given as plain data: the children of the
 * lyrics container with their `<br>` counts, the texts of the head scripts,
 * of the `songinalbum_title` divs and of the first `<small>` of each `smt` div.
 */
module Lyrics {
  import opened Wrappers
  import opened Text
  import opened Slug
  import opened Http

  const LyricsRoot := "https://www.azlyrics.com/lyrics/"

  /** `AZLyrics.url()`: the artist segment loses every "the", the song slug
      keeps it. */
  function SongUrl(artist: string, song: string): (url: string)
    ensures |url| == |LyricsRoot| + |ArtistSegment(artist)| + 1 + |Normalize(song)| + |PageSuffix|
    ensures url[..|LyricsRoot|] == LyricsRoot && url[|url| - |PageSuffix|..] == PageSuffix
    ensures url[|LyricsRoot|..|url| - |PageSuffix|] == ArtistSegment(artist) + "/" + Normalize(song)
  {
    var segment, slug := ArtistSegment(artist), Normalize(song);
    PathLayout(LyricsRoot, segment, slug, PageSuffix);
    LyricsRoot + segment + "/" + slug + PageSuffix
  }

  /** Where the pieces of `root + a + "/" + s + suffix` sit. */
  lemma PathLayout(root: string, a: string, s: string, suffix: string)
    ensures var u := root + a + "/" + s + suffix;
      |u| == |root| + |a| + 1 + |s| + |suffix|
      && u[..|root|] == root && u[|u| - |suffix|..] == suffix
      && u[|root|..|u| - |suffix|] == a + "/" + s
  {
    var u := root + a + "/" + s + suffix;
    assert u == root + (a + "/" + s) + suffix;
  }

  /** Neither slug can hold a '/', so a path `x/y` splits back uniquely. */
  lemma SplitAtSlash(x1: string, y1: string, x2: string, y2: string)
    requires '/' !in x1 && '/' !in x2
    requires x1 + "/" + y1 == x2 + "/" + y2
    ensures x1 == x2 && y1 == y2
  {
    var u := x1 + "/" + y1;
    var v := x2 + "/" + y2;
    assert u[|x1|] == '/' && v[|x2|] == '/';
    assert forall k :: 0 <= k < |x1| ==> u[k] == x1[k] != '/';
    assert forall k :: 0 <= k < |x2| ==> v[k] == x2[k] != '/';
    assert |x1| == |x2|;
    assert x1 == u[..|x1|] == x2;
    assert y1 == u[|x1| + 1..] == y2;
  }

  lemma NoSlash(t: string)
    requires forall i :: 0 <= i < |t| ==> IsSlugChar(t[i])
    ensures '/' !in t
  {
  }

  /** Strings without '/' joined as `root + a + "/" + s + suffix` split
      back uniquely. */
  lemma PathInjective(a1: string, s1: string, a2: string, s2: string)
    requires '/' !in a1 && '/' !in a2
    requires LyricsRoot + a1 + "/" + s1 + PageSuffix == LyricsRoot + a2 + "/" + s2 + PageSuffix
    ensures a1 == a2 && s1 == s2
  {
    var p1, p2 := a1 + "/" + s1, a2 + "/" + s2;
    var u1, u2 := LyricsRoot + a1 + "/" + s1 + PageSuffix, LyricsRoot + a2 + "/" + s2 + PageSuffix;
    assert u1 == LyricsRoot + p1 + PageSuffix;
    assert u2 == LyricsRoot + p2 + PageSuffix;
    assert |p1| == |p2|;
    assert p1 == u1[|LyricsRoot|..|LyricsRoot| + |p1|];
    assert p2 == u2[|LyricsRoot|..|LyricsRoot| + |p2|];
    SplitAtSlash(a1, s1, a2, s2);
  }

  /** Two (artist, song) pairs get the same address only when their artist
      segments and their song slugs agree: the address determines both. */
  lemma SongUrlInjective(artist1: string, song1: string, artist2: string, song2: string)
    requires SongUrl(artist1, song1) == SongUrl(artist2, song2)
    ensures ArtistSegment(artist1) == ArtistSegment(artist2)
    ensures Normalize(song1) == Normalize(song2)
  {
    var a1, a2 := ArtistSegment(artist1), ArtistSegment(artist2);
    NoSlash(a1);
    NoSlash(a2);
    PathInjective(a1, Normalize(song1), a2, Normalize(song2));
  }

  /** The names of tests/test_scraping.py, 'All Time Low' and 'The Other
      Side' (see Slug.ArtistTestName and Slug.SongTestName): the page is
      .../lyrics/alltimelow/theotherside.html. */
  lemma SongUrlExample(a1: string, a2: string, a3: string, s1: string, s2: string, s3: string)
    requires a1 == "All" && a2 == " Time" && a3 == " Low"
    requires s1 == "The" && s2 == " Other" && s3 == " Side"
    ensures SongUrl(a1 + a2 + a3, s1 + s2 + s3) == "https://www.azlyrics.com/lyrics/alltimelow/theotherside.html"
  {
    var artist, song := a1 + a2 + a3, s1 + s2 + s3;
    ArtistTestName(a1, a2, a3);
    SongTestName(s1, s2, s3);
    ArtistSegmentWithoutThe(artist);
    UrlOfSlugs(ArtistSegment(artist), Normalize(song));
  }

  lemma UrlOfSlugs(segment: string, slug: string)
    requires segment == "alltimelow" && slug == "theotherside"
    ensures LyricsRoot + segment + "/" + slug + PageSuffix == "https://www.azlyrics.com/lyrics/alltimelow/theotherside.html"
  {
  }

  // ---------------------------------------------------------------------
  // Lyrics block locator (`_parse_lyrics`)

  /** A child of the lyrics container: its `<br>` count, or None when
      counting raises (a text node), and its text. */
  datatype Child = Child(breaks: Option<nat>, text: string)

  datatype LyricsError =
    | ContainerMissing  // `find_all(...)[0]` on an empty result
    | NoChildren        // `list(divs.children)[0]` on an empty container

  /** The count a child competes with: a child whose count raises never
      beats the current selection, exactly as a count of 0 never does. */
  function Score(c: Child): nat {
    match c.breaks
    case Some(n) => n
    case None => 0
  }

  /** The index the loop of `_parse_lyrics` settles on: it starts at index 0
      with count 0 and moves only to a strictly greater count, so the first
      child with the greatest count wins. */
  function BestIndex(cs: seq<Child>): (t: nat)
    ensures cs == [] ==> t == 0
    ensures cs != [] ==> t < |cs|
    ensures cs != [] ==> forall j :: 0 <= j < |cs| ==> Score(cs[j]) <= Score(cs[t])
    ensures cs != [] ==> forall j :: 0 <= j < t ==> Score(cs[j]) < Score(cs[t])
    ensures t == 0 || cs[t].breaks.Some?
    decreases |cs|
  {
    if cs == [] then 0
    else
      var prefix := cs[..|cs| - 1];
      var t := BestIndex(prefix);
      var best := if prefix == [] then 0 else Score(cs[t]);
      match cs[|cs| - 1].breaks
      case Some(n) => if n > best then |cs| - 1 else t
      case None => t
  }

  /** The selection is pinned down by the three facts BestIndex promises:
      in range, a greatest count, and no earlier child with that count. */
  lemma BestIndexUnique(cs: seq<Child>, t: nat)
    requires t < |cs|
    requires forall j :: 0 <= j < |cs| ==> Score(cs[j]) <= Score(cs[t])
    requires forall j :: 0 <= j < t ==> Score(cs[j]) < Score(cs[t])
    ensures t == BestIndex(cs)
  {
  }

  /** A container none of whose children holds a `<br>` yields its first
      child. */
  lemma NoBreaksPicksFirst(cs: seq<Child>)
    requires forall j :: 0 <= j < |cs| ==> Score(cs[j]) == 0
    ensures BestIndex(cs) == 0
  {

  }

  /** The loop of `_parse_lyrics`: `target` holds the selected index, `best`
      its count; a child whose count raises leaves both alone. */
  method LocateLyrics(children: seq<Child>) returns (target: nat)
    ensures target == BestIndex(children)
  {
    target := 0;
    var best := 0;
    for i := 0 to |children|
      invariant target == BestIndex(children[..i])
      invariant best == (if i == 0 then 0 else Score(children[target]))
    {
      ghost var seen := children[..i + 1];
      assert |seen| == i + 1 && seen[i] == children[i];
      assert seen[..i] == children[..i];
      match children[i].breaks {
        case Some(n) =>
          if n > best {
            target, best := i, n;
          }
        case None =>
      }
    }
    assert children[..|children|] == children;
  }

  /** `_parse_lyrics`: the text of the selected child, or the error the
      source raises when there is no container or it has no children. */
  method ParseLyrics(container: Option<seq<Child>>) returns (r: Result<string, LyricsError>)
    ensures container.None? ==> r == Failure(ContainerMissing)
    ensures container == Some([]) ==> r == Failure(NoChildren)
    ensures container.Some? && container.value != [] ==>
      r == Success(container.value[BestIndex(container.value)].text)
  {
    match container {
      case None =>
        r := Failure(ContainerMissing);
      case Some(children) =>
        var target := LocateLyrics(children);
        if target < |children| {
          r := Success(children[target].text);
        } else {
          r := Failure(NoChildren);
        }
    }
  }

  /** Three blocks with 0, 5 and 12 line breaks: the third is chosen; two
      tied at 5: the first is. */
  lemma LocatorExamples()
    ensures BestIndex([Child(Some(0), "a"), Child(Some(5), "b"), Child(Some(12), "c")]) == 2
    ensures BestIndex([Child(Some(5), "a"), Child(Some(5), "b")]) == 0
    ensures BestIndex([Child(None, "x"), Child(Some(3), "b")]) == 1
  {
    var cs := [Child(Some(0), "a"), Child(Some(5), "b"), Child(Some(12), "c")];
    assert cs[..2][..1] == [Child(Some(0), "a")];
    assert cs[..2] == [Child(Some(0), "a"), Child(Some(5), "b")];
    var ds := [Child(Some(5), "a"), Child(Some(5), "b")];
    assert ds[..1] == [Child(Some(5), "a")];
    var es := [Child(None, "x"), Child(Some(3), "b")];
    assert es[..1] == [Child(None, "x")];
  }

  // ---------------------------------------------------------------------
  // Field extractors

  const RtkMarker := "window.rtkGPTSlotsTargeting"
  const GenreOpen := "[\"genre\", \""
  const GenreClose := "\"]"
  const GenreNotFound := "Genre not found"
  const AlbumLabel := "album:"
  const AlbumNotFound := "Album not found"
  const WritersLabel := "Writer(s):"
  const WritersNotFound := "Writers not found"

  /** The genre slice of `_parse_genre`: from just after the first
      `["genre", "` up to the next `"]`, with `find`'s -1 left in place
      (a missing opening marker makes the slice start at index 10, a missing
      closing one makes it stop one short of the end). */
  function GenreFromScript(script: string): (genre: string)
    ensures exists lo, hi :: 0 <= lo <= hi <= |script| && genre == script[lo..hi]
  {
    var start := Find(script, GenreOpen, 0) + |GenreOpen|;
    var end := Find(script, GenreClose, start);
    PySlice(script, start, end)
  }

  /** Whatever the script, the genre never contains the closing `"]`. */
  lemma GenreHasNoClose(script: string)
    ensures !Contains(GenreFromScript(script), GenreClose)
  {
    var n := |script|;
    var start := Find(script, GenreOpen, 0) + |GenreOpen|;
    var end := Find(script, GenreClose, start);
    FindSpec(script, GenreClose, start);
    var lo, hi := SliceBound(start, n), SliceBound(end, n);
    var g := GenreFromScript(script);
    if lo < hi {
      assert g == script[lo..hi] && lo == start;
      forall i | OccursAt(g, GenreClose, i) ensures false {
        OccursInSlice(script, lo, hi, GenreClose, i);
      }
    } else {
      assert g == [];
    }
    ContainsIff(g, GenreClose);
  }

  /** With the first `["genre", "` at k and the first `"]` after it at m, the
      genre is exactly the text between them. */
  lemma GenreBetweenMarkers(script: string, k: nat, m: nat)
    requires OccursAt(script, GenreOpen, k)
    requires forall i :: 0 <= i < k ==> !OccursAt(script, GenreOpen, i)
    requires k + |GenreOpen| <= m && OccursAt(script, GenreClose, m)
    requires forall i :: k + |GenreOpen| <= i < m ==> !OccursAt(script, GenreClose, i)
    ensures GenreFromScript(script) == script[k + |GenreOpen|..m]
  {
    FindSpec(script, GenreOpen, 0);
    FindSpec(script, GenreClose, k + |GenreOpen|);
  }

  /** A script with neither marker yields its text from index 10 to one
      before the end, rather than the sentinel. */
  lemma GenreWithoutMarkers(script: string)
    requires |script| > 11
    requires forall i :: !OccursAt(script, GenreOpen, i) && !OccursAt(script, GenreClose, i)
    ensures GenreFromScript(script) == script[10..|script| - 1]
  {
    FindSpec(script, GenreOpen, 0);
    FindSpec(script, GenreClose, 10);
  }

  /** `header.find('script', text=...)`: the index of the first head script
      whose text mentions the targeting marker. */
  function FirstMarked(headScripts: seq<string>): (r: Option<nat>)
    ensures r.None? ==> forall i :: 0 <= i < |headScripts| ==> !Contains(headScripts[i], RtkMarker)
    ensures r.Some? ==> (r.value < |headScripts| && Contains(headScripts[r.value], RtkMarker)
      && forall j :: 0 <= j < r.value ==> !Contains(headScripts[j], RtkMarker))
    decreases |headScripts|
  {
    if headScripts == [] then None
    else if Contains(headScripts[0], RtkMarker) then Some(0)
    else
      match FirstMarked(headScripts[1..])
      case None => None
      case Some(k) => Some(k + 1)
  }

  /** `_parse_genre`: the first head script mentioning the targeting marker
      gives the genre; without one the result is the sentinel. Either way the
      result holds no closing `"]`. */
  function ParseGenre(headScripts: seq<string>): (genre: string)
    ensures (forall i :: 0 <= i < |headScripts| ==> !Contains(headScripts[i], RtkMarker))
      ==> genre == GenreNotFound
    ensures forall i ::
      (0 <= i < |headScripts| && Contains(headScripts[i], RtkMarker)
       && forall j :: 0 <= j < i ==> !Contains(headScripts[j], RtkMarker))
      ==> genre == GenreFromScript(headScripts[i])
    ensures !Contains(genre, GenreClose)
  {
    match FirstMarked(headScripts)
    case None => NotFoundHasNoClose(); GenreNotFound
    case Some(i) => GenreHasNoClose(headScripts[i]); GenreFromScript(headScripts[i])
  }

  /** The sentinel holds no closing `"]` either. */
  lemma NotFoundHasNoClose()
    ensures !Contains(GenreNotFound, GenreClose)
  {
    ContainsIff(GenreNotFound, GenreClose);
    assert '"' !in GenreNotFound && '"' in GenreClose;
    forall i ensures !OccursAt(GenreNotFound, GenreClose, i) {
      OccurrenceHasChar(GenreNotFound, GenreClose, i, '"');
    }
  }

  /** `text.replace(prefix, '').strip()`: what album and writers both do to
      the text they found. */
  function CleanLabel(text: string, prefix: string): (r: string)
    requires |prefix| > 0
    ensures r == [] || (!IsSpace(r[0]) && !IsSpace(r[|r| - 1]))
    ensures multiset(r) <= multiset(text)
    ensures !Contains(text, prefix) ==> r == Strip(text)
  {
    var removed := RemoveAll(text, prefix);
    RemoveAllShrinks(text, prefix);
    StripMultiset(removed);
    RemoveAllUnlessPresent(text, prefix);
    Strip(removed)
  }

  /** When the label occurs, its first occurrence is cut out: the text
      before it is kept, the rest after it loses its own occurrences, and
      the whole is stripped. With the third ensures of `CleanLabel` this
      determines the result. */
  lemma CleanLabelFirst(text: string, prefix: string)
    requires |prefix| > 0 && Contains(text, prefix)
    ensures var k := Find(text, prefix, 0);
      k + |prefix| <= |text|
      && CleanLabel(text, prefix) == Strip(text[..k] + RemoveAll(text[k + |prefix|..], prefix))
  {
    RemoveAllFirst(text, prefix);
  }

  /** A text that starts with the label and holds it nowhere else is
      cleaned to the rest, stripped: `album: X` gives `X`. */
  lemma CleanLabelLabelled(prefix: string, rest: string)
    requires |prefix| > 0 && !Contains(rest, prefix)
    ensures CleanLabel(prefix + rest, prefix) == Strip(rest)
  {
    var text := prefix + rest;
    assert OccursAt(text, prefix, 0) by {
      assert text[..|prefix|] == prefix;
    }
    FindSpec(text, prefix, 0);
    CleanLabelFirst(text, prefix);
    assert text[..0] == [] && text[|prefix|..] == rest;
    ContainsIff(rest, prefix);
    RemoveAllAbsent(rest, prefix);
  }

  /** `_parse_album`: only the first `songinalbum_title` div counts. */
  function ParseAlbum(albumTitles: seq<string>): (album: string)
    ensures albumTitles == [] ==> album == AlbumNotFound
    ensures albumTitles != [] ==> album == CleanLabel(albumTitles[0], AlbumLabel)
  {
    if albumTitles == [] then AlbumNotFound else CleanLabel(albumTitles[0], AlbumLabel)
  }

  /** The first `<small>` of an `smt` div names the writers. */
  predicate IsCredit(small: Option<string>) {
    small.Some? && Contains(small.value, WritersLabel)
  }

  /** What `_parse_writers` promises: the cleaned text of the first crediting
      div, or the sentinel when no div credits anyone. */
  ghost predicate WritersChosen(credits: seq<Option<string>>, writers: string) {
    ((forall i :: 0 <= i < |credits| ==> !IsCredit(credits[i])) && writers == WritersNotFound)
    || exists i :: 0 <= i < |credits| && IsCredit(credits[i])
         && (forall j :: 0 <= j < i ==> !IsCredit(credits[j]))
         && writers == CleanLabel(credits[i].value, WritersLabel)
  }

  /** The description above leaves no choice. */
  lemma WritersChosenUnique(credits: seq<Option<string>>, w1: string, w2: string)
    requires WritersChosen(credits, w1) && WritersChosen(credits, w2)
    ensures w1 == w2
  {
    if exists i :: 0 <= i < |credits| && IsCredit(credits[i]) {
      var i1 :| 0 <= i1 < |credits| && IsCredit(credits[i1])
        && (forall j :: 0 <= j < i1 ==> !IsCredit(credits[j]))
        && w1 == CleanLabel(credits[i1].value, WritersLabel);
      var i2 :| 0 <= i2 < |credits| && IsCredit(credits[i2])
        && (forall j :: 0 <= j < i2 ==> !IsCredit(credits[j]))
        && w2 == CleanLabel(credits[i2].value, WritersLabel);
      assert i1 == i2;
    }
  }

  /** `_parse_writers`: the loop over the `smt` divs, returning at the first
      whose first `<small>` carries the label. */
  method ParseWriters(credits: seq<Option<string>>) returns (writers: string)
    ensures WritersChosen(credits, writers)
  {
    for i := 0 to |credits|
      invariant forall j :: 0 <= j < i ==> !IsCredit(credits[j])
    {
      if IsCredit(credits[i]) {
        writers := CleanLabel(credits[i].value, WritersLabel);
        return;
      }
    }
    writers := WritersNotFound;
  }

  // ---------------------------------------------------------------------
  // open_url

  /** The parts of a fetched song page the extractors read. */
  datatype LyricsPage = LyricsPage(
    container: Option<seq<Child>>,
    headScripts: seq<string>,
    albumTitles: seq<string>,
    credits: seq<Option<string>>)

  /** `open_url` returns None when the request fails, lets the lyrics error
      escape, and otherwise returns the four fields. */
  datatype SongOutcome =
    | NoneReturned
    | Raised(error: LyricsError)
    | Scraped(lyrics: string, genre: string, album: string, writers: string)

  /** `AZLyrics.open_url`, with the fetch of the song address as a
      parameter. */
  method OpenUrl(artist: string, song: string, fetch: string -> Fetch<LyricsPage>)
    returns (outcome: SongOutcome)
    ensures !Fetched(fetch(SongUrl(artist, song))) <==> outcome == NoneReturned
    ensures Fetched(fetch(SongUrl(artist, song))) ==>
      var page := fetch(SongUrl(artist, song)).page;
      match page.container
      case None => outcome == Raised(ContainerMissing)
      case Some(cs) =>
        (cs == [] ==> outcome == Raised(NoChildren))
        && (cs != [] ==>
              outcome.Scraped?
              && outcome.lyrics == cs[BestIndex(cs)].text
              && outcome.genre == ParseGenre(page.headScripts)
              && outcome.album == ParseAlbum(page.albumTitles)
              && WritersChosen(page.credits, outcome.writers))
  {
    var url := SongUrl(artist, song);
    var response := fetch(url);
    if !Fetched(response) {
      return NoneReturned;
    }
    var page := response.page;
    var lyrics := ParseLyrics(page.container);
    if lyrics.Failure? {
      return Raised(lyrics.error);
    }
    var genre := ParseGenre(page.headScripts);
    var album := ParseAlbum(page.albumTitles);
    var writers := ParseWriters(page.credits);
    outcome := Scraped(lyrics.value, genre, album, writers);
  }
}
