# AZLyrics scraper core, modelled in Dafny

This project models the HTML-extraction core of a small AZLyrics scraper.
It covers two scripts:

- `AZLyrics` (scripts/scrape_lyrics.py) builds a song page address from an artist and a song name. From the page it picks the lyrics block and pulls out the genre, the album and the writers.
- `AZArtists` (scripts/scrape_discography.py) builds an artist page address. From the discography page it rebuilds the ordered list of albums (album → songs).

The network and BeautifulSoup are not modelled. A parsed page is plain data:

- the children of the lyrics container, each with its `<br>` count (or none, when counting raises) and its text;
- the texts of the head scripts, of the `songinalbum_title` divs, and of the first `<small>` of each `smt` div;
- for a discography page, the run of sibling tags. Each sibling is an album header (`Marker`, with its stripped text), a song item (`Item`, with its first link if any) or anything else (`Other`).

Modules, one file each:

- `Wrappers` holds `Option` and `Result`.
- `Text` holds the Python `str` operations the scrapers chain together: `lower`, `replace(pat, '')`, `find`, `in`, `strip` and slicing with negative bounds.
- `Slug` is the name normaliser shared by both scripts, plus the artist-only `replace('the', '')`.
- `Http` is the outcome of `requests.get` followed by `raise_for_status`.
- `Lyrics` models `AZLyrics`.
- `Discography` models `AZArtists`.

The code-level steps each take their source's form:

- The argmax loop of `_parse_lyrics` is the method `LocateLyrics`. It is proved equal to the recursive specification `BestIndex`.
- The search loop of `_parse_writers` is the method `ParseWriters`. It is proved against the predicate `WritersChosen`.
- Each album dictionary is an object of class `AlbumRecord`, and its song list grows in place. `_parse_albums` is the method `ParseAlbums`. Its cursor `current_album` is the same object as the last record, exactly as in the source. The method is proved to build the records that hold the value-level specification `AlbumList(page)`. The album-order, song-order and frozen-album properties are proved as lemmas about that specification.

Behaviours of the code worth knowing, which the model follows:

- **The song slug keeps "the".** Only the artist slug goes through `replace('the', '')`. 'The Other Side' gives `theotherside`, as tests/test_scraping.py:16,20 also expects (`Slug.SongTestName`, `Lyrics.SongUrlExample`).
- **"the" is deleted anywhere in the artist slug, not only as a leading word.** 'Weather' has the artist segment `wear` (`Slug.ArtistSegmentWeather`).
- **The artist segment is not idempotent.** `replace('the', '')` applied to `ththee` leaves `the`, whose own segment is empty (`Slug.ArtistSegmentNotIdempotent`). Only `Slug.Normalize` is idempotent (`Slug.NormalizeIdempotent`).
- **Album titles keep the whitespace that stood before a deleted year.** The field is stripped before the `(dddd)` is removed, so the header `Album: "X" (2001)` gives the title `"X "`, not `"X"` (`Discography.TitleExample`, `Discography.ExamplePage`).
- **"Singles" is not necessarily last.** The "Singles" record is appended where its `Other songs:` header stands, like any other album.
- **`AZLyrics.url()` never fails.** An empty slug just yields an address with an empty segment. `AZArtists.url()` raises `IndexError` when the artist segment is empty, for example for an artist named 'The' (`Discography.ArtistUrlOfThe`).
- **`_parse_genre` does not fall back to the sentinel when the opening marker is missing.** `find` returns -1, so the slice starts at index 10 (`Lyrics.GenreWithoutMarkers`).

## Model

| member | source | states |
|---|---|---|
| `Text.Lower` | scripts/scrape_lyrics.py:19 | `lower()` keeps the length of the text |
| `Text.LowerSpec` | scripts/scrape_discography.py:81 | after `lower()` no ASCII capital is left, each capital has become the small letter at the same place in the alphabet, and every other character stays where it was |
| `Text.StartsWithIff` | scripts/scrape_lyrics.py:65 | the character-by-character prefix test holds exactly when `s` is at least as long as `pat` and begins with it |
| `Text.Find` | scripts/scrape_lyrics.py:65-66 | `find(pat, start)` is -1 or an index at or after `start` |
| `Text.FindInSpec` | scripts/scrape_lyrics.py:65-66 | the first-occurrence search returns -1 exactly when the pattern occurs nowhere, otherwise an occurrence with none before it |
| `Text.FindSpec` | scripts/scrape_lyrics.py:65-66 | `s.find(pat, start)` is -1 exactly when `pat` does not occur at or after `start`, otherwise the first occurrence at or after `start` |
| `Text.ContainsIff` | scripts/scrape_lyrics.py:90 | `pat in s` holds exactly when `pat` occurs at some index of `s` |
| `Text.RemoveAll` | scripts/scrape_lyrics.py:28 | `replace(pat, '')` never lengthens the text |
| `Text.RemoveAllShrinks` | scripts/scrape_lyrics.py:19 | `replace(pat, '')` only deletes: the result is no longer than the input and takes its characters from it |
| `Text.RemoveAllAbsent` | scripts/scrape_lyrics.py:28 | a string in which `pat` never occurs comes back from `replace(pat, '')` unchanged |
| `Text.RemoveAllFirst` | scripts/scrape_lyrics.py:28 | with the first occurrence at `k = s.find(pat)`, `replace(pat, '')` keeps `s[:k]` as it is and continues on the text after that occurrence; with `RemoveAllAbsent` this determines the result |
| `Text.RemoveAllPresent` | scripts/scrape_lyrics.py:28 | a text holding `pat` loses at least one whole occurrence |
| `Text.RemoveAllChar` | scripts/scrape_lyrics.py:19 | after `replace(c, '')` for a single character `c`, no `c` is left |
| `Text.RemoveCharAppend` | scripts/scrape_discography.py:87 | removing one character distributes over concatenation |
| `Text.RemoveCharAbsent` | scripts/scrape_discography.py:87 | a string without the character comes back unchanged |
| `Text.RemoveQuotes` | scripts/scrape_discography.py:87 | a quoted name followed by quote-free text loses exactly its two quotes |
| `Text.StripLeft` | scripts/scrape_lyrics.py:78 | `lstrip()` leaves a text that does not start with whitespace |
| `Text.StripRight` | scripts/scrape_lyrics.py:78 | `rstrip()` leaves a text that does not end with whitespace |
| `Text.StripLeftSpec` | scripts/scrape_lyrics.py:78 | `lstrip` leaves a suffix whose deleted prefix is all whitespace and which does not start with whitespace |
| `Text.StripRightSpec` | scripts/scrape_lyrics.py:78 | `rstrip` leaves a prefix whose deleted suffix is all whitespace and which does not end with whitespace |
| `Text.Strip` | scripts/scrape_lyrics.py:78 | `strip()` returns a slice of the input with only whitespace cut at either end, and the result neither starts nor ends with whitespace |
| `Text.StripMultiset` | scripts/scrape_lyrics.py:78 | `strip()` keeps only characters of its input |
| `Text.PySlice` | scripts/scrape_lyrics.py:67 | `s[a:b]` is always a slice of `s`; it is `s[a..b]` for in-range bounds, and with `b == -1` it stops one before the end |
| `Text.OccursInSlice` | scripts/scrape_lyrics.py:66-67 | an occurrence inside a slice is an occurrence in the whole string, shifted by the slice start |
| `Slug.KeepClassSpec` | scripts/scrape_lyrics.py:19 | `re.sub(r'[^a-z0-9\s]', '', s)` keeps only characters of the class, taken from `s` |
| `Slug.Normalize` | scripts/scrape_lyrics.py:17-23 | `_parse_artist`/`_parse_song` give a slug no longer than the name, with no plain space, made only of `a-z`, `0-9` and other whitespace |
| `Slug.NormalizeIsOnePass` | scripts/scrape_lyrics.py:19 | the three passes (lower, delete spaces, filter) equal one pass that lower-cases each character and keeps exactly the slug characters, in order |
| `Slug.OnePassAppend` | scripts/scrape_lyrics.py:19 | normalisation works character by character, so it distributes over concatenation |
| `Slug.NormalizeWords` | scripts/scrape_lyrics.py:19 | a three-word name normalises to the three word slugs run together |
| `Slug.OnePassFixes` | scripts/scrape_lyrics.py:19 | a string made only of slug characters is its own slug |
| `Slug.NormalizeIdempotent` | scripts/scrape_lyrics.py:19 | normalising a slug again changes nothing |
| `Slug.NormalizeNonEmpty` | scripts/scrape_lyrics.py:19 | a name holding an ASCII letter or digit never gives the empty slug |
| `Slug.ArtistSegment` | scripts/scrape_lyrics.py:28 | the artist segment `slug.replace('the', '')` is made of slug characters, is no longer than the slug, and is at least three characters shorter when the slug holds "the" |
| `Slug.ArtistSegmentWithoutThe` | scripts/scrape_lyrics.py:28 | a slug without "the" is its own artist segment |
| `Slug.ArtistSegmentFirstThe` | scripts/scrape_lyrics.py:28 | the segment is the slug up to its first "the", then the rest after that "the" with every "the" deleted |
| `Slug.ArtistSegmentWeather` | scripts/scrape_lyrics.py:28 | 'Weather' has the slug `weather` and the segment `wear` |
| `Slug.ArtistSegmentNotIdempotent` | scripts/scrape_lyrics.py:28 | `ththee` has the segment `the`, whose own segment is empty |
| `Slug.ArtistTestName` | tests/test_scraping.py:8-12 | 'All Time Low' normalises to `alltimelow`, which holds no "the" |
| `Slug.SongTestName` | tests/test_scraping.py:14-16 | 'The Other Side' normalises to `theotherside`: the song slug keeps "the" |
| `Lyrics.SongUrl` | scripts/scrape_lyrics.py:26-30 | the address is the lyrics root, then the artist segment (every "the" removed), '/', the song slug (keeping "the"), then `.html` |
| `Lyrics.SongUrlInjective` | scripts/scrape_lyrics.py:26-30 | two (artist, song) pairs get the same address only when their artist segments and song slugs agree |
| `Lyrics.SongUrlExample` | tests/test_scraping.py:18-21 | ('All Time Low', 'The Other Side') gives `https://www.azlyrics.com/lyrics/alltimelow/theotherside.html` |
| `Lyrics.BestIndex` | scripts/scrape_lyrics.py:105-116 | the selected child is in range, has the greatest count, and every earlier child has a strictly smaller one; it is 0 or a child whose count could be computed |
| `Lyrics.BestIndexUnique` | scripts/scrape_lyrics.py:105-116 | those three facts pin the selection down: any index meeting them is the one selected |
| `Lyrics.NoBreaksPicksFirst` | scripts/scrape_lyrics.py:105-116 | when no child holds a `<br>`, the first child is selected |
| `Lyrics.LocateLyrics` | scripts/scrape_lyrics.py:105-116 | the loop, which skips children whose count raises, ends with `target` equal to the specified selection |
| `Lyrics.ParseLyrics` | scripts/scrape_lyrics.py:99-120 | no container raises, an empty container raises, otherwise the text of the selected child is returned |
| `Lyrics.LocatorExamples` | scripts/scrape_lyrics.py:105-116 | counts 0, 5, 12 select the third child; a tie at 5 selects the first; a failing count is passed over |
| `Lyrics.GenreFromScript` | scripts/scrape_lyrics.py:64-67 | whatever the markers, the genre is a slice of the script text |
| `Lyrics.GenreHasNoClose` | scripts/scrape_lyrics.py:64-67 | whatever the script text, the genre slice never contains `"]` |
| `Lyrics.GenreBetweenMarkers` | scripts/scrape_lyrics.py:64-67 | with the first `["genre", "` at k and the first `"]` after it at m, the genre is exactly the text between them |
| `Lyrics.GenreWithoutMarkers` | scripts/scrape_lyrics.py:64-67 | with neither marker present, the result is the script text from index 10 to one before its end |
| `Lyrics.FirstMarked` | scripts/scrape_lyrics.py:61 | the script found is the first head script mentioning `window.rtkGPTSlotsTargeting`, or none when no script does |
| `Lyrics.ParseGenre` | scripts/scrape_lyrics.py:58-71 | with no marked script the result is "Genre not found"; otherwise it is the genre slice of the first marked script; either way it holds no closing `"]` |
| `Lyrics.CleanLabel` | scripts/scrape_lyrics.py:78 | `replace(label, '').strip()` neither starts nor ends with whitespace, keeps only characters of its input, and is the plain strip when the label is absent |
| `Lyrics.CleanLabelFirst` | scripts/scrape_lyrics.py:78 | when the label occurs first at k, the result is the strip of the text before k followed by the text after that label with its own labels deleted |
| `Lyrics.CleanLabelLabelled` | scripts/scrape_lyrics.py:78 | a text that is the label followed by a rest without the label is cleaned to the rest, stripped |
| `Lyrics.ParseAlbum` | scripts/scrape_lyrics.py:73-82 | "Album not found" without a `songinalbum_title` div; otherwise the cleaned text of the first one |
| `Lyrics.WritersChosenUnique` | scripts/scrape_lyrics.py:84-96 | the writers specification (first crediting div, else the sentinel) allows exactly one result |
| `Lyrics.ParseWriters` | scripts/scrape_lyrics.py:84-96 | the loop returns the cleaned text of the first div whose first `<small>` holds `Writer(s):`, or "Writers not found" when none does |
| `Lyrics.OpenUrl` | scripts/scrape_lyrics.py:33-56 | None exactly when the fetch fails or the status is 4xx/5xx; otherwise the lyrics error is raised, or the four fields are those of the extractors |
| `Discography.ArtistUrl` | scripts/scrape_discography.py:23-28 | the address fails (IndexError) exactly when the artist segment is empty |
| `Discography.ArtistUrlShape` | scripts/scrape_discography.py:23-28 | the address is the site root, the segment's first letter, '/', the segment and `.html` |
| `Discography.ArtistUrlInjective` | scripts/scrape_discography.py:23-28 | two artists share an address only when their artist segments agree |
| `Discography.ArtistUrlExample` | scripts/scrape_discography.py:23-28 | 'All Time Low' gets `https://www.azlyrics.com/a/alltimelow.html` |
| `Discography.ArtistUrlOfThe` | scripts/scrape_discography.py:24-26 | an artist named 'The' has an empty segment, so the address raises |
| `Discography.YearIndex` | scripts/scrape_discography.py:83 | the year search returns -1 or the start of a six-character window inside the text |
| `Discography.FirstYear` | scripts/scrape_discography.py:83-84 | a release year found has exactly four characters |
| `Discography.YearIndexSpec` | scripts/scrape_discography.py:83 | the year search returns -1 exactly when no `(dddd)` occurs, otherwise the leftmost one |
| `Discography.FirstYearSpec` | scripts/scrape_discography.py:83-84 | `release_year` is None exactly when the text has no `(dddd)`, otherwise the four digits of the leftmost one |
| `Discography.RemoveYears` | scripts/scrape_discography.py:87 | deleting the `(dddd)` groups never lengthens the text |
| `Discography.RemoveYearsShrinks` | scripts/scrape_discography.py:87 | deleting the years only removes characters |
| `Discography.RemoveYearsAbsent` | scripts/scrape_discography.py:87 | a text without `(dddd)` is unchanged |
| `Discography.RemoveYearsFirst` | scripts/scrape_discography.py:87 | with the leftmost `(dddd)` at p, the text before p is kept, those six characters go, and the deletion continues after them; with `RemoveYearsAbsent` this determines the result |
| `Discography.UpToColonSpec` | scripts/scrape_discography.py:87 | the text up to the first ':' is a prefix without ':' |
| `Discography.AfterColonSpec` | scripts/scrape_discography.py:87 | the text after the first ':' is the suffix that follows the first ':' |
| `Discography.SecondFieldSpec` | scripts/scrape_discography.py:87 | `split(':')[1]` is the slice between the first ':' and the next ':' or the end, and holds no ':' |
| `Discography.UpToColonStops` | scripts/scrape_discography.py:87 | the first field stops at a ':' unless it runs to the end |
| `Discography.Title` | scripts/scrape_discography.py:87 | the title is never longer than the header's second field |
| `Discography.TitleSpec` | scripts/scrape_discography.py:87 | an album title holds no '"' and no ':', takes its characters from the header text, and is the stripped second field when that field has no '"' and no `(dddd)` |
| `Discography.ColonFromLower` | scripts/scrape_discography.py:81-87 | a header recognised by `album:` or `ep:` has a ':', so `split(':')[1]` exists |
| `Discography.Opens` | scripts/scrape_discography.py:81-101 | whatever a header opens starts with no songs |
| `Discography.OpensSpec` | scripts/scrape_discography.py:81-101 | a header naming `album:` or `ep:` opens the album with its title and first `(dddd)` year; otherwise one naming `other songs:` opens "Singles" with no year key; nothing opens exactly when none of the three occurs; the record has no year key exactly when it is "Singles", and an album's title has no '"' or ':' |
| `Discography.SongOf` | scripts/scrape_discography.py:106-109 | an item gives at most one song, one exactly when its first link has a non-empty `href`, and that song is the link's text |
| `Discography.Run` | scripts/scrape_discography.py:104-113 | a walk from sibling j gives at most one song per sibling left |
| `Discography.AlbumList` | scripts/scrape_discography.py:69-116 | the list holds the titles and year keys of the recognised headers, in document order |
| `Discography.AppendToLastSpec` | scripts/scrape_discography.py:109 | appending songs to the current album changes no title, no year key and no other album, and extends its songs at the end |
| `Discography.AlbumHeaders` | scripts/scrape_discography.py:77-101 | the list has one album per recognised header, in header order, with that header's title and year key |
| `Discography.EarlierAlbumsFrozen` | scripts/scrape_discography.py:94-109 | the list only grows; an album that is no longer last never changes again, and the last one's songs only grow at the end |
| `Discography.SongsInDocumentOrder` | scripts/scrape_discography.py:77-113 | read album by album, the songs are exactly the walks' songs in document order, minus the walks before the first album |
| `Discography.WalkStopsAtFirstNonItem` | scripts/scrape_discography.py:104-113 | the walk reads exactly the block of items after a header, stopping at the first non-item and skipping items with no link or no `href` |
| `Discography.WalkJoinsCurrentAlbum` | scripts/scrape_discography.py:103-113 | after a header that opens nothing, the walk's songs join the last album opened |
| `Discography.NothingBeforeFirstAlbum` | scripts/scrape_discography.py:71-103 | until a header has opened an album, the list is empty and walks place nothing |
| `Discography.SecondFieldOf` | scripts/scrape_discography.py:87 | for `label:rest` with no other ':', the title field is `rest` |
| `Discography.TitleExample` | scripts/scrape_discography.py:87 | `Album: "X" (2001)` is titled `X ` (the space before the year stays) |
| `Discography.YearExample` | scripts/scrape_discography.py:83-84 | `Album: "X" (2001)` has release year `2001` |
| `Discography.HeaderExample` | scripts/scrape_discography.py:81-94 | `Album: "X" (2001)` opens the album `X ` of 2001 with no songs |
| `Discography.SinglesExample` | scripts/scrape_discography.py:96-101 | `Other songs:` opens "Singles" with no year key |
| `Discography.HeaderStep` | scripts/scrape_discography.py:81-113 | a header that opens an album appends it, filled with the walk that follows |
| `Discography.ExamplePage` | scripts/scrape_discography.py:69-116 | the page `Album: "X" (2001)`, Song A, Song B, `Other songs:`, Song C gives the album `X ` (year 2001) with Song A and Song B, then "Singles" (no year key) with Song C |
| `Discography.AlbumRecord.constructor` | scripts/scrape_discography.py:89-100 | a new album record has the header's title and year key and no songs |
| `Discography.AlbumRecord.AppendSong` | scripts/scrape_discography.py:109 | `current_album["songs"].append(song)` adds the song at the end |
| `Discography.WalkSongs` | scripts/scrape_discography.py:104-113 | the inner `while` loop appends to the album exactly the songs of the walk from the given sibling |
| `Discography.OpenAlbum` | scripts/scrape_discography.py:81-101 | a recognised header creates a fresh record, appends it and makes it the current album; the cursor stays the last record |
| `Discography.HandleHeader` | scripts/scrape_discography.py:77-113 | one loop iteration keeps the cursor equal to the last record and the records equal to the specified list |
| `Discography.FillLast` | scripts/scrape_discography.py:103-113 | the walk fills the current album, which is the last record; earlier records keep their songs |
| `Discography.ParseAlbums` | scripts/scrape_discography.py:69-116 | the records built are fresh and pairwise distinct, and in order they hold exactly the specified album list |
| `Discography.Snapshot` | scripts/scrape_discography.py:116 | the values saved are the records' titles, year keys and songs, in order |
| `Discography.OpenUrl` | scripts/scrape_discography.py:31-56 | None for an unfetched page; otherwise the saved list is the album list of the page; a failing address raises |

## Left out

- The network: `requests.get` and its exception classes are one parameter, `fetch`, which returns a transport error or a status and a parsed page. All transport errors are handled alike, as both scripts catch them all.
- BeautifulSoup: `find_all`, `find`, `find_next_sibling` and `get_text(strip=True)` are replaced by the plain data described above. The model assumes the page has a `<head>` and a `<body>`; without one the source raises `AttributeError`.
- Lyrics.ParseGenre: each head script is taken as a text. In the source, `find` (scripts/scrape_lyrics.py:61) runs the marker test on every candidate script's `.string`, so a head script with no text, such as `<script src=...></script>`, placed before the marked one makes `'window.rtkGPTSlotsTargeting' in t` raise TypeError inside `find`; that failure is not modelled.
- Discography.ParseAlbums: the album headers are assumed to sit in one sibling run. `find_all('div', class 'album')` finds them anywhere in the document, and a header's walk reads its own siblings. A tag that is both an album header and a song item is not modelled.
- Text.Lower: only the ASCII letters are lower-cased. Python's `lower()` also maps a few non-ASCII characters onto ASCII ones (the Kelvin sign to `k`, dotted capital I to `i` plus a combining dot), and those would survive the slug filter.
- Discography.FirstYearSpec, Discography.YearIndex and Discography.RemoveYears: `\d` is read as the ASCII digits, both in the year search and in the year deletion. Python's `\d` in a `str` pattern also matches other Unicode decimal digits.
- `_save_to_file` writes JSON to a fixed path. File I/O is not modelled: `ParseAlbums` returns the records, `Snapshot` gives their values, and the discography `OpenUrl` reports the list it would save. The source's `open_url` itself returns None.
- Logging and `print` calls are not modelled.
- scripts/upload_to_mongodb.py, scripts/sentiment_analysis.py, scripts/bulk_scrape_lyrics.py and main.py are not part of this model. They hold database access, random delays, floating-point scores from NLP libraries, an empty stub and a command-line front end.
- The `test_open_url` case of tests/test_scraping.py reads the live site, so it has no counterpart here.
