/** The cached anime catalogue behind `/search`: one `slug::::title` line per
    anime, re-used while it is at most a day old (`load_from_cache`). */
module CatalogCache {
  import opened Common
  import opened Text
  import opened Constants

  /** One catalogue entry: the `session` slug and the `title`. */
  datatype CatalogEntry = CatalogEntry(session: string, title: string)

  const DELIMITER: string := "::::"

  /** What `path.stat()` reports for the cache file: it is missing, it
      carries a modification time (seconds), or reading it raises. */
  datatype CacheStat = NotFound | Stamped(mtime: int) | Unreadable

  /** `_is_fresh(path)`: the file exists and was modified at most one day
      before `now`; a missing file and any error count as stale. */
  predicate IsFresh(st: CacheStat, now: int)
  {
    st.Stamped? && now - st.mtime <= CACHE_FRESHNESS_SECONDS
  }

  /** A fresh file stays fresh at every earlier instant, and a file modified
      at `mtime` is stale from `mtime + 86401` on. Only a readable time
      stamp is ever fresh. */
  lemma FreshnessWindow(st: CacheStat, now: int, earlier: int)
    ensures IsFresh(st, now) && earlier <= now ==> IsFresh(st, earlier)
    ensures st.Stamped? ==> !IsFresh(st, st.mtime + 86401)
    ensures IsFresh(st, now) ==> st.Stamped?
  {
  }

  /** `slug, title = line.strip().split("::::", 1)`; `None` is the
      `ValueError` of a line without the delimiter. */
  function ParseLine(line: string): Option<CatalogEntry>
  {
    var pieces := SplitOnce(Strip(line), DELIMITER);
    if |pieces| == 2 then Some(CatalogEntry(pieces[0], pieces[1])) else None
  }

  /** A line parses iff its stripped text contains the delimiter; the slug is
      the text before the first delimiter and the title all the rest. */
  lemma ParseLineMeaning(line: string)
    ensures ParseLine(line).None? <==> !Contains(Strip(line), DELIMITER)
    ensures ParseLine(line).Some? ==>
      var e := ParseLine(line).value;
      && Strip(line) == e.session + DELIMITER + e.title
      && !Contains(e.session, DELIMITER)
  {
  }

  /** The line format round-trips: an entry whose slug contains no
      delimiter, does not end in ':' and has no leading whitespace, written
      as `slug::::title` with a title that has no trailing whitespace, reads
      back as itself. A slug ending in ':' does not: the first delimiter
      then starts inside it. */
  lemma ParseLineRoundTrip(e: CatalogEntry)
    requires SlugFits(e.session)
    requires e.session == [] || !IsSpace(e.session[0])
    requires e.title == [] || !IsSpace(e.title[|e.title| - 1])
    ensures ParseLine(e.session + DELIMITER + e.title) == Some(e)
  {
    var line := e.session + DELIMITER + e.title;
    LineStripped(e);
    FirstDelimiter(e.session, e.title);
    SplitOnceAt(line, DELIMITER, |e.session|);
    assert line[..|e.session|] == e.session;
    assert line[|e.session| + 4..] == e.title;
  }

  lemma LineStripped(e: CatalogEntry)
    requires e.session == [] || !IsSpace(e.session[0])
    requires e.title == [] || !IsSpace(e.title[|e.title| - 1])
    ensures Strip(e.session + DELIMITER + e.title) == e.session + DELIMITER + e.title
  {
    var line := e.session + DELIMITER + e.title;
    assert line[0] == (if e.session == [] then ':' else e.session[0]);
    assert line[|line| - 1] == (if e.title == [] then ':' else e.title[|e.title| - 1]);
    StripEnds(line);
  }

  /** A slug that the first `::::` of its line cannot overlap. */
  predicate SlugFits(slug: string)
  {
    !Contains(slug, DELIMITER) && (slug == [] || slug[|slug| - 1] != ':')
  }

  /** A slug ending in ':' loses that colon to the title. */
  lemma ColonSlugDoesNotRoundTrip()
    ensures ParseLine("a:" + DELIMITER + "x") == Some(CatalogEntry("a", ":x"))
  {
    var line := "a:" + DELIMITER + "x";
    assert line == "a:::::x";
    StripEnds(line);
    assert OccursAt(line, DELIMITER, 1) by {
      assert line[1..5] == DELIMITER;
    }
    assert !OccursAt(line, DELIMITER, 0) by {
      assert line[0..4][0] == 'a';
    }
    assert FindSub(line, DELIMITER) == Some(1);
    assert line[..1] == "a" && line[5..] == ":x";
  }

  lemma StripEnds(p: string)
    requires p != [] && !IsSpace(p[0]) && !IsSpace(p[|p| - 1])
    ensures Strip(p) == p
  {
  }

  /** The first delimiter of `slug::::title` is the one after the slug. */
  lemma FirstDelimiter(slug: string, title: string)
    requires SlugFits(slug)
    ensures FindSub(slug + DELIMITER + title, DELIMITER) == Some(|slug|)
  {
    var line := slug + DELIMITER + title;
    assert OccursAt(line, DELIMITER, |slug|) by {
      assert line[|slug|..|slug| + 4] == DELIMITER;
    }
    forall j: nat | j < |slug| ensures !OccursAt(line, DELIMITER, j) {
      NotInSlug(slug, title, j);
    }
  }

  lemma NotInSlug(slug: string, title: string, i: nat)
    requires SlugFits(slug)
    requires i < |slug|
    ensures !OccursAt(slug + DELIMITER + title, DELIMITER, i)
  {
    var line := slug + DELIMITER + title;
    if i + 4 <= |slug| {
      assert line[i..i + 4] == slug[i..i + 4];
      assert !OccursAt(slug, DELIMITER, i);
    } else {
      assert line[i..i + 4][|slug| - 1 - i] == slug[|slug| - 1];
    }
  }

  /** `_read_cache()`: one entry per line the file yields, in order. Any line
      without the delimiter (a blank line included) and an empty file raise
      `ValueError`, shown as `None`. */
  method ReadCache(lines: seq<string>) returns (r: Option<seq<CatalogEntry>>)
    ensures r.None? <==> lines == [] || exists k :: 0 <= k < |lines| && ParseLine(lines[k]).None?
    ensures r.Some? ==> |r.value| == |lines|
    ensures r.Some? ==> forall k :: 0 <= k < |lines| ==> ParseLine(lines[k]) == Some(r.value[k])
  {
    var results: seq<CatalogEntry> := [];
    for k := 0 to |lines|
      invariant |results| == k
      invariant forall j :: 0 <= j < k ==> ParseLine(lines[j]) == Some(results[j])
    {
      var e := ParseLine(lines[k]);
      if e.None? {
        return None;
      }
      results := results + [e.value];
    }
    if results == [] {
      return None;
    }
    return Some(results);
  }

  /** `load_from_cache(api)`. A stale or missing file asks for a refresh, but
      the callable handed to the executor only looks up
      `download_anime_list_cache` without calling it, so nothing is
      refreshed: `present` and `read` describe the file before and after.
      Every failure (no file, a read error, a malformed or empty file)
      yields `[]`. */
  method LoadFromCache(st: CacheStat, now: int, present: bool, read: Call<seq<string>>)
    returns (r: seq<CatalogEntry>, refreshRequested: bool)
    ensures refreshRequested <==> !IsFresh(st, now)
    ensures !present ==> r == []
    ensures present && read.Raises? ==> r == []
    ensures present && read.Returns? ==> r == LoadedEntries(read.value)
  {
    refreshRequested := !IsFresh(st, now);
    // the refresh is a no-op: the file is unchanged
    if !present {
      return [], refreshRequested;
    }
    match read
    case Raises(_) =>
      return [], refreshRequested;
    case Returns(lines) =>
      var parsed := ReadCache(lines);
      r := if parsed.Some? then parsed.value else [];
  }

  /** What a readable file loads to: its entries, or `[]` when it is empty
      or has a bad line. */
  ghost function LoadedEntries(lines: seq<string>): seq<CatalogEntry>
  {
    if lines != [] && forall k :: 0 <= k < |lines| ==> ParseLine(lines[k]).Some?
    then seq(|lines|, k requires 0 <= k < |lines| => ParseLine(lines[k]).value)
    else []
  }
}
