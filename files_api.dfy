/** The uploaded-files routes of the web API (`api/routes/files.py`):
    filters, orderings, pagination and the splitting of an anime's
    alternative titles. The database is a sequence of file rows, in row
    order, and a map from anime id to its anime row. */
module FilesApi {
  import opened Common
  import opened Text
  import opened Sorting

  /** An `Anime` row: `alt_titles` is '|'-separated text or NULL. */
  datatype Anime = Anime(id: int, title: string, altTitles: Option<string>)

  /** The columns of an `UploadedFile` row the routes look at. */
  datatype FileRow = FileRow(id: int, animeId: int, episode: int, createdAt: int)

  /** `AnimeTitleItem` */
  datatype AnimeItem = AnimeItem(id: int, title: string, altTitles: seq<string>)

  // ----------------------------------------------------------- alt titles

  /** `[t for t in pieces if t]` */
  function NonEmpty(pieces: seq<string>): (r: seq<string>)
    ensures forall k :: 0 <= k < |r| ==> r[k] != [] && r[k] in pieces
    ensures (forall k :: 0 <= k < |pieces| ==> pieces[k] != []) ==> r == pieces
  {
    if pieces == [] then []
    else
      var init := pieces[..|pieces| - 1];
      var last := pieces[|pieces| - 1];
      assert forall k :: 0 <= k < |init| ==> init[k] == pieces[k];
      assert pieces == init + [last];
      NonEmpty(init) + (if last != [] then [last] else [])
  }

  /** A text is kept iff it is a non-empty piece, and as often as it
      occurs among the pieces. */
  lemma {:induction false} NonEmptyMembers(pieces: seq<string>)
    ensures forall t :: t in NonEmpty(pieces) <==> t in pieces && t != []
    ensures forall t :: t != [] ==> multiset(NonEmpty(pieces))[t] == multiset(pieces)[t]
    decreases |pieces|
  {
    if pieces != [] {
      var init, last := pieces[..|pieces| - 1], pieces[|pieces| - 1];
      assert pieces == init + [last];
      NonEmptyMembers(init);
    }
  }

  /** The filter works piece by piece, so it keeps the pieces' order. */
  lemma {:induction false} NonEmptyConcat(a: seq<string>, b: seq<string>)
    ensures NonEmpty(a + b) == NonEmpty(a) + NonEmpty(b)
    decreases |b|
  {
    if b == [] {
      assert a + b == a;
    } else {
      var init, last := b[..|b| - 1], b[|b| - 1];
      assert a + b == (a + init) + [last];
      assert b == init + [last];
      NonEmptyConcat(a, init);
      NonEmptySnoc(init, last);
      NonEmptySnoc(a + init, last);
    }
  }

  /** The last piece is kept at the end iff it is non-empty. */
  lemma NonEmptySnoc(ps: seq<string>, last: string)
    ensures NonEmpty(ps + [last]) == NonEmpty(ps) + (if last != [] then [last] else [])
  {
    assert (ps + [last])[..|ps + [last]| - 1] == ps;
  }

  /** `[t for t in alt_titles.split('|') if t] if alt_titles else []`:
      NULL and the empty text give no titles; every title is non-empty
      and holds no '|'. */
  function AltTitles(alt: Option<string>): (r: seq<string>)
    ensures alt.None? || alt == Some("") ==> r == []
    ensures alt.Some? ==> forall t :: t in r <==> t in Split(alt.value, '|') && t != []
    ensures forall k :: 0 <= k < |r| ==> r[k] != [] && '|' !in r[k]
  {
    match alt
    case None => []
    case Some(s) =>
      NonEmptyMembers(Split(s, '|'));
      if s == "" then [] else NonEmpty(Split(s, '|'))
  }

  /** Titles stored joined with '|' come back as they were. */
  lemma AltTitlesRoundTrip(ts: seq<string>)
    requires forall k :: 0 <= k < |ts| ==> ts[k] != [] && '|' !in ts[k]
    ensures AltTitles(Some(Join(ts, '|'))) == ts
  {
    if ts != [] {
      SplitJoin(ts, '|');
      assert Join(ts, '|') != "" by {
        JoinHead(ts, '|');
      }
    }
  }

  /** A stored text without empty pieces is the join of its titles. */
  lemma AltTitlesJoin(s: string)
    requires s != ""
    requires forall k :: 0 <= k < |Split(s, '|')| ==> Split(s, '|')[k] != []
    ensures Join(AltTitles(Some(s)), '|') == s
  {
    JoinSplit(s, '|');
  }

  /** The join starts with the first part. */
  lemma JoinHead(ts: seq<string>, c: char)
    requires ts != []
    ensures |Join(ts, c)| >= |ts[0]|
  {
  }

  function Item(a: Anime): (r: AnimeItem)
    ensures r.id == a.id && r.title == a.title && r.altTitles == AltTitles(a.altTitles)
  {
    AnimeItem(a.id, a.title, AltTitles(a.altTitles))
  }

  // ------------------------------------------------------------ pagination

  /** The query bounds FastAPI enforces before a route runs. */
  predicate ValidPage(page: int, size: int)
  {
    page >= 1 && 1 <= size <= 100
  }

  /** `offset = (page - 1) * page_size` */
  function Offset(page: int, size: int): (r: nat)
    requires ValidPage(page, size)
  {
    (page - 1) * size
  }

  /** `OFFSET offset LIMIT size` over the ordered rows. */
  function Window<T>(rows: seq<T>, offset: nat, size: nat): (r: seq<T>)
    ensures |r| <= size
    ensures offset <= |rows| ==> r == rows[offset..if offset + size <= |rows| then offset + size else |rows|]
    ensures offset >= |rows| ==> r == []
  {
    if offset >= |rows| then []
    else rows[offset..if offset + size <= |rows| then offset + size else |rows|]
  }

  function Page<T>(rows: seq<T>, page: int, size: int): seq<T>
    requires ValidPage(page, size)
  {
    Window(rows, Offset(page, size), size)
  }

  /** A page is the rows from the offset on: `page_size` of them, or all
      that are left, or none past the end. */
  lemma PageExact<T>(rows: seq<T>, page: int, size: int)
    requires ValidPage(page, size)
    ensures var o := Offset(page, size);
            |Page(rows, page, size)| == if o >= |rows| then 0 else if o + size <= |rows| then size else |rows| - o
    ensures forall k :: 0 <= k < |Page(rows, page, size)| ==>
              Offset(page, size) + k < |rows| && Page(rows, page, size)[k] == rows[Offset(page, size) + k]
  {
    var o := Offset(page, size);
    if o < |rows| {
      var e := if o + size <= |rows| then o + size else |rows|;
      assert Page(rows, page, size) == rows[o..e];
    }
  }

  /** `has_next = (page * page_size) < total` */
  predicate HasNext(page: int, size: int, total: int)
  {
    page * size < total
  }

  /** `has_next` holds exactly when the next page is not empty. */
  lemma HasNextMeaning<T>(rows: seq<T>, page: int, size: int)
    requires ValidPage(page, size)
    ensures HasNext(page, size, |rows|) <==> Page(rows, page + 1, size) != []
  {
    assert Offset(page + 1, size) == page * size;
  }

  /** Row `i` is on page `i / page_size + 1`, at its place in the page. */
  lemma RowOnPage<T>(rows: seq<T>, size: int, i: int)
    requires 1 <= size <= 100 && 0 <= i < |rows|
    ensures ValidPage(i / size + 1, size)
    ensures var o := Offset(i / size + 1, size);
            && o <= i < o + size
            && Page(rows, i / size + 1, size)[i - o] == rows[i]
  {
    var q := i / size;
    assert q * size + i % size == i;
    assert Offset(q + 1, size) == q * size;
  }

  /** Pages do not overlap: a later page starts after an earlier one ends,
      so no row is on two pages. */
  lemma PagesDisjoint(p1: int, p2: int, size: int)
    requires ValidPage(p1, size) && ValidPage(p2, size) && p1 < p2
    ensures Offset(p1, size) + size <= Offset(p2, size)
  {
    MulLess(p1 - 1, p2 - 1, size);
  }

  lemma MulLess(a: nat, b: nat, c: nat)
    requires a < b
    ensures a * c + c <= b * c
  {
    assert b * c == a * c + c + (b - a - 1) * c;
  }

  // ------------------------------------------------------------ list_files

  /** A page of sorted rows holds some of those rows, still sorted. */
  lemma PageOfSorted<T>(s: seq<T>, key: T -> int, page: int, size: int)
    requires ValidPage(page, size) && SortedBy(s, key)
    ensures SortedBy(Page(s, page, size), key)
    ensures forall x :: x in Page(s, page, size) ==> x in s
  {
    var o := Offset(page, size);
    if o < |s| {
      var e := if o + size <= |s| then o + size else |s|;
      var p := s[o..e];
      assert Page(s, page, size) == p;
      forall k, l | 0 <= k < l < |p|
        ensures key(p[k]) <= key(p[l])
      {
        assert p[k] == s[o + k] && p[l] == s[o + l];
      }
    }
  }

  /** A page of a sorted listing holds rows of the listing, in key order. */
  lemma SortedPage<T>(rows: seq<T>, key: T -> int, page: int, size: int)
    requires ValidPage(page, size)
    ensures forall x :: x in Page(SortBy(rows, key), page, size) ==> x in rows
    ensures SortedBy(Page(SortBy(rows, key), page, size), key)
  {
    var sorted := SortBy(rows, key);
    SortByIsSortedPermutation(rows, key);
    PageOfSorted(sorted, key, page, size);
    forall x | x in sorted
      ensures x in rows
    {
      assert x in multiset(sorted);
    }
  }

  /** The case-insensitive `ILIKE '%text%'`, as a substring test. */
  predicate TitleMatches(title: string, filter: Option<string>)
  {
    filter.None? || filter.value == "" || Contains(Lower(title), Lower(filter.value))
  }

  predicate EpisodeMatches(f: FileRow, episode: Option<int>)
  {
    episode.None? || f.episode == episode.value
  }

  /** The inner join with the anime rows and the filters of `list_files`. */
  function Joined(files: seq<FileRow>, animes: map<int, Anime>, title: Option<string>, episode: Option<int>)
    : (r: seq<(FileRow, Anime)>)
    ensures forall x :: x in r ==> x.0 in files && x.0.animeId in animes && x.1 == animes[x.0.animeId]
                                   && TitleMatches(x.1.title, title) && EpisodeMatches(x.0, episode)
    ensures forall f :: f in files && f.animeId in animes && TitleMatches(animes[f.animeId].title, title) && EpisodeMatches(f, episode)
                        ==> (f, animes[f.animeId]) in r
  {
    if files == [] then []
    else
      var init := files[..|files| - 1];
      var f := files[|files| - 1];
      assert files == init + [f];
      Joined(init, animes, title, episode)
      + (if f.animeId in animes && TitleMatches(animes[f.animeId].title, title) && EpisodeMatches(f, episode)
         then [(f, animes[f.animeId])] else [])
  }

  function NewestFirst(row: (FileRow, Anime)): int
  {
    -row.0.createdAt
  }

  datatype FileEntry = FileEntry(file: FileRow, anime: AnimeItem)

  datatype FilePage = FilePage(items: seq<FileEntry>, total: nat, page: int, size: int, hasNext: bool)

  datatype Reply<T> = Unprocessable | NotFound | Ok(value: T)

  function Entries(rows: seq<(FileRow, Anime)>): (r: seq<FileEntry>)
    ensures |r| == |rows|
    ensures forall k :: 0 <= k < |rows| ==> r[k] == FileEntry(rows[k].0, Item(rows[k].1))
  {
    seq(|rows|, k requires 0 <= k < |rows| => FileEntry(rows[k].0, Item(rows[k].1)))
  }

  /** `list_files`: the matching files, newest first, one page of them. */
  function ListFiles(files: seq<FileRow>, animes: map<int, Anime>, page: int, size: int,
                     title: Option<string>, episode: Option<int>): (r: Reply<FilePage>)
    ensures r.Unprocessable? <==> !ValidPage(page, size) || (episode.Some? && episode.value < 1)
  {
    if !ValidPage(page, size) || (episode.Some? && episode.value < 1) then Unprocessable
    else
      var joined := Joined(files, animes, title, episode);
      var sorted := SortBy(joined, NewestFirst);
      Ok(FilePage(Entries(Page(sorted, page, size)), |joined|, page, size, HasNext(page, size, |joined|)))
  }

  /** A listed file is a file row joined with its anime's item and passes
      both filters. */
  predicate Listed(e: FileEntry, files: seq<FileRow>, animes: map<int, Anime>, title: Option<string>, episode: Option<int>)
  {
    && e.file in files && e.file.animeId in animes && e.anime == Item(animes[e.file.animeId])
    && TitleMatches(animes[e.file.animeId].title, title) && EpisodeMatches(e.file, episode)
  }

  /** A page of `list_files` holds at most `page_size` listed files, newest
      first; `total` counts every match. */
  lemma ListFilesMeaning(files: seq<FileRow>, animes: map<int, Anime>, page: int, size: int,
                         title: Option<string>, episode: Option<int>)
    requires ValidPage(page, size) && (episode.None? || episode.value >= 1)
    ensures ListFiles(files, animes, page, size, title, episode).Ok?
    ensures var r := ListFiles(files, animes, page, size, title, episode).value;
            && |r.items| <= size
            && r.total == |Joined(files, animes, title, episode)|
            && r.hasNext == HasNext(page, size, r.total)
    ensures forall e :: e in ListFiles(files, animes, page, size, title, episode).value.items ==> Listed(e, files, animes, title, episode)
    ensures var items := ListFiles(files, animes, page, size, title, episode).value.items;
            forall k, l :: 0 <= k < l < |items| ==> items[k].file.createdAt >= items[l].file.createdAt
  {
    var joined := Joined(files, animes, title, episode);
    SortedPage(joined, NewestFirst, page, size);
    var p := Page(SortBy(joined, NewestFirst), page, size);
    var items := ListFiles(files, animes, page, size, title, episode).value.items;
    assert items == Entries(p);
    forall e | e in items
      ensures Listed(e, files, animes, title, episode)
    {
      var k :| 0 <= k < |items| && items[k] == e;
      assert p[k] in p;
    }
    forall k, l | 0 <= k < l < |items|
      ensures items[k].file.createdAt >= items[l].file.createdAt
    {
      assert NewestFirst(p[k]) <= NewestFirst(p[l]);
    }
  }

  /** The page of `list_files` is exactly entries `offset` to
      `offset + page_size` of the newest-first matches, as many as exist. */
  lemma ListFilesExact(files: seq<FileRow>, animes: map<int, Anime>, page: int, size: int,
                       title: Option<string>, episode: Option<int>)
    requires ValidPage(page, size) && (episode.None? || episode.value >= 1)
    ensures ListFiles(files, animes, page, size, title, episode).Ok?
    ensures var r := ListFiles(files, animes, page, size, title, episode).value;
            var o := Offset(page, size);
            |r.items| == if o >= r.total then 0 else if o + size <= r.total then size else r.total - o
    ensures var items := ListFiles(files, animes, page, size, title, episode).value.items;
            var sorted := SortBy(Joined(files, animes, title, episode), NewestFirst);
            forall k :: 0 <= k < |items| ==>
              && Offset(page, size) + k < |sorted|
              && items[k] == FileEntry(sorted[Offset(page, size) + k].0, Item(sorted[Offset(page, size) + k].1))
  {
    var sorted := SortBy(Joined(files, animes, title, episode), NewestFirst);
    SortByIsSortedPermutation(Joined(files, animes, title, episode), NewestFirst);
    PageExact(sorted, page, size);
    assert ListFiles(files, animes, page, size, title, episode).value.items == Entries(Page(sorted, page, size));
  }

  // ---------------------------------------------------- episodes and files

  /** The files of one anime, in row order. */
  function OfAnime(files: seq<FileRow>, animeId: int): (r: seq<FileRow>)
    ensures forall f :: f in r <==> f in files && f.animeId == animeId
  {
    if files == [] then []
    else
      var init := files[..|files| - 1];
      var f := files[|files| - 1];
      assert files == init + [f];
      OfAnime(init, animeId) + (if f.animeId == animeId then [f] else [])
  }

  function EpisodeOrder(f: FileRow): int
  {
    f.episode
  }

  datatype EpisodePage = EpisodePage(items: seq<FileRow>, total: nat, page: int, size: int, hasNext: bool, anime: AnimeItem)

  /** `list_episodes_for_anime`: 404 for an unknown anime, otherwise one
      page of its files by ascending episode. */
  function ListEpisodes(files: seq<FileRow>, animes: map<int, Anime>, animeId: int, page: int, size: int)
    : (r: Reply<EpisodePage>)
    ensures r.Unprocessable? <==> !ValidPage(page, size)
    ensures r.NotFound? <==> ValidPage(page, size) && animeId !in animes
  {
    if !ValidPage(page, size) then Unprocessable
    else if animeId !in animes then NotFound
    else
      var of := OfAnime(files, animeId);
      var sorted := SortBy(of, EpisodeOrder);
      Ok(EpisodePage(Page(sorted, page, size), |of|, page, size, HasNext(page, size, |of|), Item(animes[animeId])))
  }

  /** A page of episodes holds at most `page_size` files of that anime, by
      ascending episode. */
  lemma ListEpisodesMeaning(files: seq<FileRow>, animes: map<int, Anime>, animeId: int, page: int, size: int)
    requires ValidPage(page, size) && animeId in animes
    ensures ListEpisodes(files, animes, animeId, page, size).Ok?
    ensures var r := ListEpisodes(files, animes, animeId, page, size).value;
            && |r.items| <= size
            && r.total == |OfAnime(files, animeId)|
            && r.anime == Item(animes[animeId])
            && r.hasNext == HasNext(page, size, r.total)
    ensures forall f :: f in ListEpisodes(files, animes, animeId, page, size).value.items ==> f in files && f.animeId == animeId
    ensures var items := ListEpisodes(files, animes, animeId, page, size).value.items;
            forall k, l :: 0 <= k < l < |items| ==> items[k].episode <= items[l].episode
  {
    var of := OfAnime(files, animeId);
    SortedPage(of, EpisodeOrder, page, size);
    assert ListEpisodes(files, animes, animeId, page, size).value.items == Page(SortBy(of, EpisodeOrder), page, size);
  }

  /** The page of episodes is exactly files `offset` to
      `offset + page_size` of the anime's files by episode, as many as exist. */
  lemma ListEpisodesExact(files: seq<FileRow>, animes: map<int, Anime>, animeId: int, page: int, size: int)
    requires ValidPage(page, size) && animeId in animes
    ensures ListEpisodes(files, animes, animeId, page, size).Ok?
    ensures var r := ListEpisodes(files, animes, animeId, page, size).value;
            var o := Offset(page, size);
            |r.items| == if o >= r.total then 0 else if o + size <= r.total then size else r.total - o
    ensures var items := ListEpisodes(files, animes, animeId, page, size).value.items;
            var sorted := SortBy(OfAnime(files, animeId), EpisodeOrder);
            forall k :: 0 <= k < |items| ==> Offset(page, size) + k < |sorted| && items[k] == sorted[Offset(page, size) + k]
  {
    var sorted := SortBy(OfAnime(files, animeId), EpisodeOrder);
    SortByIsSortedPermutation(OfAnime(files, animeId), EpisodeOrder);
    PageExact(sorted, page, size);
    assert ListEpisodes(files, animes, animeId, page, size).value.items == Page(sorted, page, size);
  }

  /** The first file row with that id whose anime exists (the inner join). */
  function FirstFile(files: seq<FileRow>, animes: map<int, Anime>, fileId: int): (r: Option<nat>)
    ensures r.None? <==> forall k :: 0 <= k < |files| ==> !(files[k].id == fileId && files[k].animeId in animes)
    ensures r.Some? ==> r.value < |files| && files[r.value].id == fileId && files[r.value].animeId in animes
    decreases |files|
  {
    if files == [] then None
    else if files[0].id == fileId && files[0].animeId in animes then Some(0)
    else match FirstFile(files[1..], animes, fileId)
      case None => None
      case Some(k) => Some(k + 1)
  }

  /** `get_file`: 404 when no file with that id joins an anime. */
  function GetFile(files: seq<FileRow>, animes: map<int, Anime>, fileId: int): (r: Reply<FileEntry>)
    ensures r.NotFound? <==> forall k :: 0 <= k < |files| ==> !(files[k].id == fileId && files[k].animeId in animes)
    ensures r.Ok? ==> r.value.file in files && r.value.file.id == fileId
                      && r.value.file.animeId in animes && r.value.anime == Item(animes[r.value.file.animeId])
    ensures !r.Unprocessable?
  {
    match FirstFile(files, animes, fileId)
    case None => NotFound
    case Some(k) => Ok(FileEntry(files[k], Item(animes[files[k].animeId])))
  }
}
