/** The ledger of uploaded episodes (`db.py` over the `uploaded_files`
    table): one insert and three queries, over an in-memory sequence of
    records kept in insertion order. The database clock that fills
    `created_at` is a parameter. */
module Ledger {
  import opened Common
  import opened Text
  import opened Constants
  import opened Sorting

  /** A row of `uploaded_files`. */
  datatype Record = Record(
    id: nat, animeTitle: string, episode: int,
    uploadedChatId: int, uploaderUserId: int, uploadedMessageId: int,
    vaultChatId: int, vaultMessageId: int,
    epLang: string, epQual: int, filename: string, filesize: Option<int>,
    createdAt: int)

  /** The rows handed to `insert_uploaded_file`, with `vault_chat_id` and
      `vault_message_id` copied from the chat and message of the upload. */
  function NewRecord(id: nat, title: string, episode: int, chatId: int, uploaderId: int, lang: string,
                     qual: int, messageId: int, filename: string, filesize: Option<int>, now: int): (r: Record)
    ensures r.vaultChatId == r.uploadedChatId == chatId
    ensures r.vaultMessageId == r.uploadedMessageId == messageId
    ensures r.id == id && r.animeTitle == title && r.episode == episode && r.uploaderUserId == uploaderId
    ensures r.epLang == lang && r.epQual == qual && r.filename == filename && r.filesize == filesize
    ensures r.createdAt == now
  {
    Record(id, title, episode, chatId, uploaderId, messageId, chatId, messageId, lang, qual, filename, filesize, now)
  }

  class Store {
    var records: seq<Record>
    var nextId: nat

    /** Row ids grow with insertion order and stay below the next one. */
    ghost predicate Valid()
      reads this
    {
      && (forall i :: 0 <= i < |records| ==> records[i].id < nextId)
      && (forall i, j :: 0 <= i < j < |records| ==> records[i].id < records[j].id)
    }

    constructor()
      ensures Valid() && records == [] && nextId == 1
    {
      records := [];
      nextId := 1;
    }

    /** `insert_uploaded_file`. `ep_qual` is a NOT NULL column, so a
        `None` quality makes the commit raise and nothing is stored. */
    method Insert(title: string, episode: int, chatId: int, uploaderId: int, lang: string,
                  qual: Option<int>, messageId: int, filename: string, filesize: Option<int>, now: int)
      returns (r: Option<Record>)
      requires Valid()
      modifies this
      ensures Valid()
      ensures qual.None? ==> r.None? && records == old(records) && nextId == old(nextId)
      ensures qual.Some? ==>
        && r == Some(NewRecord(old(nextId), title, episode, chatId, uploaderId, lang, qual.value,
                               messageId, filename, filesize, now))
        && records == old(records) + [r.value]
        && nextId == old(nextId) + 1
    {
      if qual.None? {
        return None;
      }
      var rec := NewRecord(nextId, title, episode, chatId, uploaderId, lang, qual.value,
                           messageId, filename, filesize, now);
      records := records + [rec];
      nextId := nextId + 1;
      return Some(rec);
    }
  }

  // ------------------------------------------------------------ queries

  predicate IsEpisode(r: Record, title: string, episode: int)
  {
    r.animeTitle == title && r.episode == episode
  }

  /** `get_latest_uploaded`: the matching row created last. Rows created at
      the same instant are not ordered by the query; here the later
      inserted one wins. */
  function Latest(rs: seq<Record>, title: string, episode: int): (r: Option<Record>)
    ensures r.None? <==> forall i :: 0 <= i < |rs| ==> !IsEpisode(rs[i], title, episode)
    ensures r.Some? ==> r.value in rs && IsEpisode(r.value, title, episode)
    ensures r.Some? ==> forall i :: 0 <= i < |rs| && IsEpisode(rs[i], title, episode) ==> rs[i].createdAt <= r.value.createdAt
    decreases |rs|
  {
    if rs == [] then None
    else
      var rest := Latest(rs[1..], title, episode);
      if !IsEpisode(rs[0], title, episode) then rest
      else if rest.Some? && rest.value.createdAt >= rs[0].createdAt then rest
      else Some(rs[0])
  }

  /** A row inserted no earlier than every other row is the latest of its
      episode. */
  lemma {:induction false} InsertedIsLatest(rs: seq<Record>, rec: Record)
    requires forall i :: 0 <= i < |rs| ==> rs[i].createdAt <= rec.createdAt
    ensures Latest(rs + [rec], rec.animeTitle, rec.episode) == Some(rec)
    decreases |rs|
  {
    if rs != [] {
      assert (rs + [rec])[1..] == rs[1..] + [rec];
      InsertedIsLatest(rs[1..], rec);
    }
  }

  /** The rows of one title, in insertion order. */
  function OfTitle(rs: seq<Record>, title: string): (r: seq<Record>)
    ensures forall i :: 0 <= i < |r| ==> r[i].animeTitle == title
    ensures forall x :: x in rs && x.animeTitle == title <==> x in r
    decreases |rs|
  {
    if rs == [] then []
    else if rs[0].animeTitle == title then [rs[0]] + OfTitle(rs[1..], title)
    else OfTitle(rs[1..], title)
  }

  /** Each record of the title is kept as often as it was stored, and no
      other record at all. */
  lemma {:induction false} OfTitleCount(rs: seq<Record>, title: string, x: Record)
    ensures multiset(OfTitle(rs, title))[x] == if x.animeTitle == title then multiset(rs)[x] else 0
    decreases |rs|
  {
    if rs != [] {
      assert rs == [rs[0]] + rs[1..];
      OfTitleCount(rs[1..], title, x);
    }
  }

  /** The filter keeps insertion order: filtering a concatenation
      concatenates the filtered parts. */
  lemma {:induction false} OfTitleConcat(a: seq<Record>, b: seq<Record>, title: string)
    ensures OfTitle(a + b, title) == OfTitle(a, title) + OfTitle(b, title)
    decreases |a|
  {
    if a == [] {
      assert a + b == b;
    } else {
      var h, ab := a[0], a + b;
      assert ab[0] == h && ab[1..] == a[1..] + b;
      OfTitleConcat(a[1..], b, title);
      var x, y := OfTitle(a[1..], title), OfTitle(b, title);
      if h.animeTitle == title {
        assert OfTitle(ab, title) == [h] + (x + y);
        assert [h] + (x + y) == ([h] + x) + y;
      }
    }
  }

  function EpisodeKey(r: Record): int
  {
    r.episode
  }

  /** `list_uploaded_for_anime`: the rows of a title in ascending episode
      order, at most `limit` of them. The order among rows of the same
      episode is not fixed by the query; here it is insertion order. */
  function ListForAnime(rs: seq<Record>, title: string, limit: nat): seq<Record>
  {
    Take(SortBy(OfTitle(rs, title), EpisodeKey), limit)
  }

  /** The listing has only rows of the title, sorted by episode, as many as
      the title has up to the limit. */
  lemma ListForAnimeMeaning(rs: seq<Record>, title: string, limit: nat)
    ensures var r := ListForAnime(rs, title, limit);
            && (forall i :: 0 <= i < |r| ==> r[i].animeTitle == title && r[i] in rs)
            && SortedBy(r, EpisodeKey)
            && |r| == (if |OfTitle(rs, title)| <= limit then |OfTitle(rs, title)| else limit)
  {
    var of := OfTitle(rs, title);
    var sorted := SortBy(of, EpisodeKey);
    SortByIsSortedPermutation(of, EpisodeKey);
    var r := ListForAnime(rs, title, limit);
    assert r == sorted[..|r|];
    forall i | 0 <= i < |r|
      ensures r[i].animeTitle == title && r[i] in rs
    {
      assert r[i] == sorted[i];
      assert sorted[i] in multiset(of);
    }
  }

  /** The rows the limit leaves out have episodes no lower than any listed
      one: the listing is the lowest episodes of the title. */
  lemma ListForAnimeLowest(rs: seq<Record>, title: string, limit: nat)
    ensures var sorted := SortBy(OfTitle(rs, title), EpisodeKey);
            var r := ListForAnime(rs, title, limit);
            && |r| <= |sorted|
            && multiset(r) + multiset(sorted[|r|..]) == multiset(OfTitle(rs, title))
            && forall i, j :: 0 <= i < |r| <= j < |sorted| ==> r[i].episode <= sorted[j].episode
  {
    var of := OfTitle(rs, title);
    var sorted := SortBy(of, EpisodeKey);
    SortByIsSortedPermutation(of, EpisodeKey);
    var r := ListForAnime(rs, title, limit);
    assert sorted == r + sorted[|r|..];
    assert multiset(sorted) == multiset(r) + multiset(sorted[|r|..]);
    forall i, j | 0 <= i < |r| <= j < |sorted|
      ensures r[i].episode <= sorted[j].episode
    {
      assert r[i] == sorted[i];
      assert EpisodeKey(sorted[i]) <= EpisodeKey(sorted[j]);
    }
  }

  /** `list_uploaded_for_anime` without a limit argument. */
  function ListForAnimeDefault(rs: seq<Record>, title: string): (r: seq<Record>)
    ensures |r| <= DEFAULT_QUERY_LIMIT
  {
    ListForAnime(rs, title, DEFAULT_QUERY_LIMIT)
  }

  /** `list_distinct_anime_titles`: every title once, in the order of its
      first row. The order of a `SELECT DISTINCT` is not fixed by the query. */
  function DistinctTitles(rs: seq<Record>): (r: seq<string>)
    ensures forall t :: t in r <==> exists i :: 0 <= i < |rs| && rs[i].animeTitle == t
    ensures forall i, j :: 0 <= i < j < |r| ==> r[i] != r[j]
  {
    Titles(rs, [])
  }

  /** The titles of `rs` that are not in `seen`, appended to `seen`. */
  function Titles(rs: seq<Record>, seen: seq<string>): (r: seq<string>)
    requires forall i, j :: 0 <= i < j < |seen| ==> seen[i] != seen[j]
    ensures forall t :: t in r <==> t in seen || exists i :: 0 <= i < |rs| && rs[i].animeTitle == t
    ensures forall i, j :: 0 <= i < j < |r| ==> r[i] != r[j]
    decreases |rs|
  {
    if rs == [] then seen
    else
      var next := if rs[0].animeTitle in seen then seen else seen + [rs[0].animeTitle];
      var r := Titles(rs[1..], next);
      assert forall i :: 0 <= i < |rs[1..]| ==> rs[1..][i] == rs[i + 1];
      r
  }

  // ---------------------------------------------------------- database file

  /** `url.startswith("sqlite")`. */
  predicate IsSqlite(url: string)
  {
    |url| >= 6 && url[..6] == "sqlite"
  }

  /** `os.path.dirname(p)`: everything up to the last '/', without its
      trailing slashes unless it is made of slashes only. It is empty iff
      the path has no '/', and only slashes lie between it and the base
      name. */
  function DirName(p: string): (r: string)
    ensures |r| <= |p| && r == p[..|r|]
    ensures r == "" <==> '/' !in p
    ensures forall i :: |r| <= i < |p| - |BaseName(p)| ==> p[i] == '/'
    ensures (exists i :: 0 <= i < |r| && r[i] != '/') ==> r[|r| - 1] != '/'
  {
    BaseNameMeaning(p);
    var head := p[..|p| - |BaseName(p)|];
    assert '/' !in p ==> head == [] by {
      if head != [] {
        assert p[|p| - |BaseName(p)| - 1] == '/';
      }
    }
    if head != [] && exists i :: 0 <= i < |head| && head[i] != '/' then TrimSlashes(head) else head
  }

  /** `s.rstrip('/')`: the longest prefix not ending in '/'. */
  function TrimSlashes(s: string): (r: string)
    ensures |r| <= |s| && r == s[..|r|]
    ensures forall i :: |r| <= i < |s| ==> s[i] == '/'
    ensures r != [] ==> r[|r| - 1] != '/'
    ensures (exists i :: 0 <= i < |s| && s[i] != '/') ==> r != []
    decreases |s|
  {
    if s != [] && s[|s| - 1] == '/' then TrimSlashes(s[..|s| - 1]) else s
  }

  /** A `"///"` starts at `k`. */
  predicate TripleSlashAt(s: string, k: nat)
  {
    k + 3 <= |s| && s[k] == '/' && s[k + 1] == '/' && s[k + 2] == '/'
  }

  /** `s.split("///")[-1]`, scanning left to right as `split` does: `start`
      is where the current piece began, `k` the next index to test. */
  function PieceAfter(s: string, k: nat, start: nat): string
    requires start <= k <= |s|
    decreases |s| - k
  {
    if k + 3 > |s| then s[start..]
    else if TripleSlashAt(s, k) then PieceAfter(s, k + 3, k + 3)
    else PieceAfter(s, k + 1, start)
  }

  function DatabasePath(url: string): string
  {
    PieceAfter(url, 0, 0)
  }

  /** The scan ends on a suffix with no `"///"` in it that follows a
      `"///"`, or on the whole text when it has none. */
  lemma {:induction false} PieceAfterMeaning(s: string, k: nat, start: nat)
    requires start <= k <= |s|
    requires start == 0 || (start >= 3 && TripleSlashAt(s, start - 3))
    requires forall j :: start <= j < k ==> !TripleSlashAt(s, j)
    ensures var r := PieceAfter(s, k, start);
            && |r| <= |s| - start && r == s[|s| - |r|..]
            && (forall j :: |s| - |r| <= j < |s| ==> !TripleSlashAt(s, j))
            && (|r| == |s| || (|r| + 3 <= |s| && TripleSlashAt(s, |s| - |r| - 3)))
            && (|r| == |s| ==> start == 0 && forall j :: k <= j < |s| ==> !TripleSlashAt(s, j))
    decreases |s| - k
  {
    if k + 3 > |s| {
    } else if TripleSlashAt(s, k) {
      PieceAfterMeaning(s, k + 3, k + 3);
    } else {
      PieceAfterMeaning(s, k + 1, start);
    }
  }

  /** The database path is a suffix of the URL with no `"///"` in it that
      directly follows a `"///"` (the one the left-to-right split ends on,
      see `FourSlashes`), or the whole URL when it has none. */
  lemma DatabasePathMeaning(url: string)
    ensures var p := DatabasePath(url);
            && |p| <= |url| && p == url[|url| - |p|..]
            && (forall j :: 0 <= j < |p| ==> !TripleSlashAt(p, j))
            && ((exists j :: TripleSlashAt(url, j)) ==> |p| + 3 <= |url| && url[|url| - |p| - 3..|url| - |p|] == "///")
  {
    PieceAfterMeaning(url, 0, 0);
    var p := DatabasePath(url);
    forall j | 0 <= j < |p|
      ensures !TripleSlashAt(p, j)
    {
      assert TripleSlashAt(p, j) <==> TripleSlashAt(url, |url| - |p| + j);
    }
    if exists j :: TripleSlashAt(url, j) {
      var j :| TripleSlashAt(url, j);
      assert |p| != |url|;
    }
  }

  /** `split` breaks at the first `"///"` it meets, so a run of four
      slashes leaves one slash on the path. */
  lemma FourSlashes()
    ensures DatabasePath("sqlite:////a/b") == "/a/b"
    ensures DatabaseDir("sqlite:////a/b") == Some("/a")
  {
    var url := "sqlite:////a/b";
    ScanSkips(url, 0, 7, 0);
    assert TripleSlashAt(url, 7);
    ScanSkips(url, 10, |url|, 10);
    assert url[10..] == "/a/b";
    AbsoluteDirName();
  }

  /** `os.path.dirname("/a/b") == "/a"` */
  lemma AbsoluteDirName()
    ensures DirName("/a/b") == "/a"
  {
    var p := "/a/b";
    assert p[..3] == "/a/";
    assert BaseName(p) == "b";
    assert p[..3][1] != '/';
    assert TrimSlashes("/a/") == "/a";
  }

  /** The scan passes over positions where no `"///"` starts. */
  lemma {:induction false} ScanSkips(s: string, k: nat, j: nat, start: nat)
    requires start <= k <= j <= |s|
    requires forall i :: k <= i < j ==> !TripleSlashAt(s, i)
    ensures PieceAfter(s, k, start) == PieceAfter(s, j, start)
    decreases j - k
  {
    if k < j && k + 3 <= |s| {
      ScanSkips(s, k + 1, j, start);
    }
  }

  /** The directory `init_db` creates for a SQLite database, if any: the
      parent of the database path. */
  function DatabaseDir(url: string): (r: Option<string>)
    ensures r.Some? ==> IsSqlite(url) && r.value != ""
    ensures r.None? <==> !IsSqlite(url) || '/' !in DatabasePath(url)
    ensures r.Some? ==> r.value == DirName(DatabasePath(url))
  {
    if !IsSqlite(url) then None
    else
      var parent := DirName(DatabasePath(url));
      if parent != "" then Some(parent) else None
  }
}
