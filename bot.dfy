/** The bot's handlers (`bot.py`) with the chat client abstracted: what a
    handler replies, which download task it queues and how it changes the
    per-chat session store. The catalogue cache and the provider's episode
    list are inputs. */
module Bot {
  import opened Common
  import opened Text
  import opened Constants
  import opened Sorting
  import opened Fuzzy
  import opened CatalogCache
  import opened EpisodeSpec
  import opened Ranking

  /** An inline button: its label and its callback data. */
  datatype Button = Button(text: string, payload: string)

  // ---------------------------------------------------------------- search

  /** The text a search result is scored on: its `title` (an empty one
      falls back to a missing `name`, then to `""`). */
  function EntryTitle(e: CatalogEntry): string
  {
    e.title
  }

  /** The results `search_handler` shows, best first. */
  function TopEntries(results: seq<CatalogEntry>, query: string): seq<CatalogEntry>
  {
    ItemsOf(Ranked(results, EntryTitle, query, MAX_SEARCH_RESULTS))
  }

  /** At most eight results are shown, each a cache entry whose title
      scores above 0 against the query. */
  lemma TopEntriesMeaning(results: seq<CatalogEntry>, query: string)
    ensures |TopEntries(results, query)| <= MAX_SEARCH_RESULTS
    ensures forall e :: e in TopEntries(results, query) ==> e in results && Score(e.title, query) > 0
  {
    RankedMeaning(results, EntryTitle, query, MAX_SEARCH_RESULTS);
  }

  /** The scoring loop, `sorted(..., reverse=True)` and the cut. */
  method TopResults(results: seq<CatalogEntry>, query: string) returns (top: seq<CatalogEntry>)
    ensures top == TopEntries(results, query)
  {
    var scored := ScoreAll(results, EntryTitle, query);
    var sorted := SortBy(scored, NegScore);
    top := ItemsOf(Take(sorted, MAX_SEARCH_RESULTS));
  }

  /** The button label: the title when shorter than 30 characters, else its
      first 27 followed by "...". */
  function Label(title: string): (r: string)
    ensures |r| <= MAX_TITLE_LENGTH
    ensures |title| < MAX_TITLE_LENGTH ==> r == title
    ensures |title| >= MAX_TITLE_LENGTH ==> |r| == MAX_TITLE_LENGTH && r == title[..TITLE_TRUNCATE_LENGTH] + "..."
  {
    if |title| < MAX_TITLE_LENGTH then title else title[..TITLE_TRUNCATE_LENGTH] + "..."
  }

  /** The callback data of a search result. */
  function SelectPayload(session: string): string
  {
    "SELECT|" + session
  }

  /** `_, session = data.split("|", 2)`: `None` is the `ValueError` of an
      unpacking that does not find exactly two pieces. */
  function SelectSession(data: string): Option<string>
  {
    var parts := SplitMax(data, '|', 2);
    if |parts| == 2 then Some(parts[1]) else None
  }

  /** The payload gives the session back exactly when the session holds
      no '|'. */
  lemma SelectRoundTrip(session: string)
    ensures SelectSession(SelectPayload(session)) == Some(session) <==> '|' !in session
  {
    var data := SelectPayload(session);
    assert data[6] == '|' && data[..6] == "SELECT" && '|' !in data[..6];
    assert IndexOf(data, '|') == Some(6);
    assert data[7..] == session;
    var rest := SplitMax(session, '|', 1);
    assert SplitMax(data, '|', 2) == ["SELECT"] + rest;
    match IndexOf(session, '|')
    case None =>
      assert rest == [session];
    case Some(i) =>
      assert |rest| == 2;
  }

  /** What `search_handler` shows. */
  datatype SearchReply =
    | SearchFailed(error: string)
    | NoResults(query: string)
    | Choices(buttons: seq<Button>)
    | LabelCrash   // `len(None)` for a result whose title is empty

  /** One button per shown result, labelled from its title and carrying
      its session. */
  function ResultButtons(top: seq<CatalogEntry>): (r: seq<Button>)
    ensures |r| == |top|
    ensures forall i :: 0 <= i < |top| ==> r[i] == Button(Label(top[i].title), SelectPayload(top[i].session))
  {
    seq(|top|, i requires 0 <= i < |top| => Button(Label(top[i].title), SelectPayload(top[i].session)))
  }

  /** The button loop. A result with an empty title reaches `len` as
      `None` (its missing `name`) and raises `TypeError`. */
  method SearchButtons(top: seq<CatalogEntry>) returns (reply: SearchReply)
    ensures (exists i :: 0 <= i < |top| && top[i].title == "") <==> reply == LabelCrash
    ensures reply != LabelCrash ==> reply == Choices(ResultButtons(top))
  {
    var buttons: seq<Button> := [];
    for k := 0 to |top|
      invariant |buttons| == k
      invariant forall i :: 0 <= i < k ==> top[i].title != "" && buttons[i] == Button(Label(top[i].title), SelectPayload(top[i].session))
    {
      if top[k].title == "" {
        return LabelCrash;
      }
      buttons := buttons + [Button(Label(top[k].title), SelectPayload(top[k].session))];
    }
    return Choices(buttons);
  }

  /** `search_handler`: `queryText` is the text after `/search`, `loaded`
      the outcome of `load_from_cache`. The loader turns every exception
      into `[]`, so its result is always `Returns`; the `Raises` case is
      the handler's own `except`, which only a loader that raises reaches. */
  method Search(queryText: string, loaded: Call<seq<CatalogEntry>>) returns (reply: SearchReply)
    ensures loaded.Raises? ==> reply == SearchFailed(loaded.message)
    ensures loaded == Returns([]) ==> reply == NoResults(Strip(queryText))
    ensures loaded.Returns? && loaded.value != [] ==>
      var top := TopEntries(loaded.value, Strip(queryText));
      && ((exists i :: 0 <= i < |top| && top[i].title == "") <==> reply == LabelCrash)
      && (reply != LabelCrash ==> reply == Choices(ResultButtons(top)))
  {
    var query := Strip(queryText);
    if loaded.Raises? {
      return SearchFailed(loaded.message);
    }
    var results := loaded.value;
    if results == [] {
      return NoResults(query);
    }
    var top := TopResults(results, query);
    reply := SearchButtons(top);
  }

  // ------------------------------------------------------------- selection

  /** The index of the first entry with that session. */
  function FirstWithSession(results: seq<CatalogEntry>, session: string): (r: Option<nat>)
    ensures r.None? <==> forall i :: 0 <= i < |results| ==> results[i].session != session
    ensures r.Some? ==> r.value < |results| && results[r.value].session == session
    ensures r.Some? ==> forall j :: 0 <= j < r.value ==> results[j].session != session
    decreases |results|
  {
    if results == [] then None
    else if results[0].session == session then Some(0)
    else match FirstWithSession(results[1..], session)
      case None => None
      case Some(i) => Some(i + 1)
  }

  /** The title of the first entry with the session, if any. */
  function TitleOf(results: seq<CatalogEntry>, session: string): Option<string>
  {
    match FirstWithSession(results, session)
    case None => None
    case Some(i) => Some(results[i].title)
  }

  /** The title `/download` uses: the first entry with the slug decides,
      its title when non-empty, the slug otherwise. */
  function SlugTitle(results: seq<CatalogEntry>, slug: string): (r: string)
  {
    match FirstWithSession(results, slug)
    case None => slug
    case Some(i) => if results[i].title != "" then results[i].title else slug
  }

  /** The lookup loop of `select_callback`: the title of the first entry
      with the session, or `None`. */
  method LookupTitle(results: seq<CatalogEntry>, session: string) returns (title: Option<string>)
    ensures title == TitleOf(results, session)
  {
    for k := 0 to |results|
      invariant forall j :: 0 <= j < k ==> results[j].session != session
    {
      if session == results[k].session {
        FirstIs(results, session, k);
        return Some(results[k].title);
      }
    }
    return None;
  }

  lemma FirstIs(results: seq<CatalogEntry>, session: string, k: nat)
    requires k < |results| && results[k].session == session
    requires forall j :: 0 <= j < k ==> results[j].session != session
    ensures FirstWithSession(results, session) == Some(k)
  {
    match FirstWithSession(results, session)
    case None =>
    case Some(i) =>
  }

  /** The lookup loop of `/download`: the first entry with the slug as its
      session decides; its title when that is non-empty, the slug otherwise. */
  method DownloadTitle(results: seq<CatalogEntry>, slug: string) returns (title: string)
    ensures title == SlugTitle(results, slug)
  {
    title := slug;
    for k := 0 to |results|
      invariant forall j :: 0 <= j < k ==> results[j].session != slug
    {
      if results[k].session == slug {
        FirstIs(results, slug, k);
        if results[k].title != "" {
          title := results[k].title;
        }
        return;
      }
    }
  }

  /** The state kept per chat between the selection and the episode choice. */
  datatype SessionData = SessionData(slug: string, title: Option<string>, episodes: seq<Episode>)

  // ------------------------------------------------------- episode buttons

  function EpisodeButton(ep: Episode): Button
  {
    Button("Ep " + ep.number, "PICK_EP|" + ep.number)
  }

  /** One button for each of the first `MAX_EPISODE_BUTTONS` episodes,
      in provider order. */
  function MenuButtons(eps: seq<Episode>): (r: seq<Button>)
    ensures |r| == (if |eps| <= MAX_EPISODE_BUTTONS then |eps| else MAX_EPISODE_BUTTONS)
    ensures forall i :: 0 <= i < |r| ==> r[i] == EpisodeButton(eps[i])
  {
    var first := Take(eps, MAX_EPISODE_BUTTONS);
    seq(|first|, i requires 0 <= i < |first| => EpisodeButton(first[i]))
  }

  /** The button loop over `eps[:MAX_EPISODE_BUTTONS]`. */
  method EpisodeButtons(eps: seq<Episode>) returns (btns: seq<Button>)
    ensures btns == MenuButtons(eps)
  {
    var first := Take(eps, MAX_EPISODE_BUTTONS);
    btns := [];
    for k := 0 to |first|
      invariant |btns| == k
      invariant forall i :: 0 <= i < k ==> btns[i] == EpisodeButton(eps[i])
    {
      btns := btns + [EpisodeButton(first[k])];
    }
  }

  /** `[btns[i:i + EPISODES_PER_ROW] for i in range(0, len(btns), EPISODES_PER_ROW)]` */
  function Chunks(btns: seq<Button>): (rows: seq<seq<Button>>)
    ensures |rows| == (|btns| + EPISODES_PER_ROW - 1) / EPISODES_PER_ROW
  {
    var n := (|btns| + EPISODES_PER_ROW - 1) / EPISODES_PER_ROW;
    seq(n, i requires 0 <= i < n =>
      btns[i * EPISODES_PER_ROW..if (i + 1) * EPISODES_PER_ROW <= |btns| then (i + 1) * EPISODES_PER_ROW else |btns|])
  }

  function Concat(rows: seq<seq<Button>>): seq<Button>
  {
    if rows == [] then [] else Concat(rows[..|rows| - 1]) + rows[|rows| - 1]
  }

  /** The rows hold one to five buttons each and, read in order, are the
      button list. */
  lemma ChunksMeaning(btns: seq<Button>)
    ensures forall i :: 0 <= i < |Chunks(btns)| ==> 1 <= |Chunks(btns)[i]| <= EPISODES_PER_ROW
    ensures Concat(Chunks(btns)) == btns
  {
    var rows := Chunks(btns);
    ChunksPrefix(btns, |rows|);
    assert rows[..|rows|] == rows;
  }

  lemma {:induction false} ChunksPrefix(btns: seq<Button>, k: nat)
    requires k <= |Chunks(btns)|
    ensures Concat(Chunks(btns)[..k]) == btns[..if k * EPISODES_PER_ROW <= |btns| then k * EPISODES_PER_ROW else |btns|]
  {
    if k > 0 {
      var rows := Chunks(btns);
      ChunksPrefix(btns, k - 1);
      assert rows[..k][..k - 1] == rows[..k - 1];
    }
  }

  const LIST_ALL_BUTTON: Button := Button("List all episodes", "LIST_ALL")
  const SEND_SPEC_BUTTON: Button := Button("I'll send ep spec", "SEND_SPEC")

  /** The keyboard of the episode menu: the episode rows, then the two
      helper rows. */
  function Keyboard(btns: seq<Button>): (rows: seq<seq<Button>>)
    ensures |rows| == |Chunks(btns)| + 2
    ensures rows[|rows| - 2] == [LIST_ALL_BUTTON] && rows[|rows| - 1] == [SEND_SPEC_BUTTON]
    ensures rows[..|rows| - 2] == Chunks(btns)
  {
    Chunks(btns) + [[LIST_ALL_BUTTON], [SEND_SPEC_BUTTON]]
  }

  /** `PICK_EP|<num>` split once at the first '|'. */
  function PickNumber(data: string): Option<string>
  {
    var parts := SplitMax(data, '|', 1);
    if |parts| == 2 then Some(parts[1]) else None
  }

  /** Episode payloads always give their number back, '|' or not. */
  lemma PickRoundTrip(number: string)
    ensures PickNumber(EpisodeButton(Episode(number, "")).payload) == Some(number)
  {
    var data := "PICK_EP|" + number;
    assert data[7] == '|' && '|' !in data[..7];
    assert IndexOf(data, '|') == Some(7);
    assert data[8..] == number;
  }


  // -------------------------------------------------------- chosen episodes

  /** The indices `k`, ascending, whose number `ns[k]` passes `wanted`:
      all of them and no others. */
  function Picks(ns: seq<int>, wanted: int -> bool): (r: seq<nat>)
    ensures forall i :: 0 <= i < |r| ==> r[i] < |ns| && wanted(ns[r[i]])
    ensures forall i, j :: 0 <= i < j < |r| ==> r[i] < r[j]
    ensures forall k :: 0 <= k < |ns| && wanted(ns[k]) ==> k in r
  {
    if ns == [] then []
    else
      var init := ns[..|ns| - 1];
      assert forall k :: 0 <= k < |init| ==> init[k] == ns[k];
      Picks(init, wanted) + (if wanted(ns[|ns| - 1]) then [|ns| - 1] else [])
  }

  /** `[ep for ep in eps if int(ep["episode"]) in desired]`, where
      `ns[k]` is `int(eps[k]["episode"])` and `wanted` the membership
      test: the picked episodes in provider order. */
  function Filtered(eps: seq<Episode>, ns: seq<int>, wanted: int -> bool): (r: seq<Episode>)
    requires |ns| == |eps|
  {
    var p := Picks(ns, wanted);
    seq(|p|, i requires 0 <= i < |p| => eps[p[i]])
  }

  /** `None` when an `int()` raises `ValueError`. */
  function Chosen(eps: seq<Episode>, wanted: int -> bool): (r: Option<seq<Episode>>)
    ensures r.None? <==> exists k :: 0 <= k < |eps| && PyInt(eps[k].number).None?
  {
    match Numbers(eps)
    case None => None
    case Some(ns) => Some(Filtered(eps, ns, wanted))
  }

  /** The filtered episodes are exactly the wanted ones, taken at the
      ascending positions `Picks` gives, so in provider order. */
  lemma FilteredMeaning(eps: seq<Episode>, ns: seq<int>, wanted: int -> bool)
    requires |ns| == |eps|
    ensures forall k :: 0 <= k < |eps| && wanted(ns[k]) ==> eps[k] in Filtered(eps, ns, wanted)
    ensures forall x :: x in Filtered(eps, ns, wanted) ==> exists k :: 0 <= k < |eps| && x == eps[k] && wanted(ns[k])
    ensures |Filtered(eps, ns, wanted)| == |Picks(ns, wanted)|
    ensures forall i :: 0 <= i < |Picks(ns, wanted)| ==> Filtered(eps, ns, wanted)[i] == eps[Picks(ns, wanted)[i]]
  {
    var p := Picks(ns, wanted);
    var r := Filtered(eps, ns, wanted);
    forall k | 0 <= k < |eps| && wanted(ns[k])
      ensures eps[k] in r
    {
      var i :| 0 <= i < |p| && p[i] == k;
      assert r[i] == eps[k];
    }
    forall x | x in r
      ensures exists k :: 0 <= k < |eps| && x == eps[k] && wanted(ns[k])
    {
      var i :| 0 <= i < |r| && r[i] == x;
      assert x == eps[p[i]] && wanted(ns[p[i]]);
    }
  }

  /** Two membership tests that agree pick the same indices. */
  lemma {:induction false} PicksAgree(ns: seq<int>, w1: int -> bool, w2: int -> bool)
    requires forall n :: w1(n) == w2(n)
    ensures Picks(ns, w1) == Picks(ns, w2)
  {
    if ns != [] {
      PicksAgree(ns[..|ns| - 1], w1, w2);
    }
  }

  /** `n` is among the numbers the spec expands to. */
  ghost predicate Wanted(spec: string, n: int)
  {
    ParseSpec(spec).Some? && Covers(ParseSpec(spec).value, n)
  }

  // ------------------------------------------------------- episode listing

  function EpisodeLines(eps: seq<Episode>): (r: seq<string>)
    ensures |r| == |eps| && forall i :: 0 <= i < |eps| ==> r[i] == "Ep " + eps[i].number
  {
    seq(|eps|, i requires 0 <= i < |eps| => "Ep " + eps[i].number)
  }

  function AllEpisodesText(eps: seq<Episode>): string
  {
    "All episodes:\n" + Truncate(JoinWith(EpisodeLines(eps), ", "), MAX_EPISODE_LIST_LENGTH, TRUNCATED_EPISODE_LIST_LENGTH, " ... (truncated) ")
  }

  // -------------------------------------------------------------- handlers

  /** The arguments a handler gives `DownloadUploadTask`. The title is
      `None` when the selection found no cache entry for the session. */
  datatype Queued = Queued(title: Option<string>, slug: string, episodes: seq<Episode>,
                           chatId: int, uploaderId: int, quality: string, audio: string)

  datatype SelectReply =
    | BadSelect                 // the unpacking of the payload raises
    | SelectCrashed(error: string)  // `load_from_cache` raises, uncaught
    | FetchFailed(error: string)
    | NoEpisodes
    | Menu(chosen: SessionData, count: nat, keyboard: seq<seq<Button>>)

  datatype PickReply = BadPick | Expired | NoSuchEpisode | PickQueued(task: Queued)

  datatype SpecReply =
    | NotInFlow                 // no session: the message is ignored
    | InvalidSpec
    | Couldnt                   // `/download`: no episodes for the slug
    | SpecRaises                // `int()` raises on an episode number
    | NoMatch
    | Abandoned                 // `/download`: the cache load raised
    | SpecQueued(task: Queued)

  /** The first episode whose number string is `num`. */
  function FirstNumbered(eps: seq<Episode>, num: string): (r: Option<nat>)
    ensures r.None? <==> forall i :: 0 <= i < |eps| ==> eps[i].number != num
    ensures r.Some? ==> r.value < |eps| && eps[r.value].number == num
    ensures r.Some? ==> forall j :: 0 <= j < r.value ==> eps[j].number != num
    decreases |eps|
  {
    if eps == [] then None
    else if eps[0].number == num then Some(0)
    else match FirstNumbered(eps[1..], num)
      case None => None
      case Some(i) => Some(i + 1)
  }

  /** The handlers with `SESSION_STORE`, chat id to the selection state. */
  class Sessions {
    var store: map<int, SessionData>

    constructor()
      ensures store == map[]
    {
      store := map[];
    }

    /** `select_callback`: `loaded` is the cache load, `fetched` the
        provider's episode list for the title and session. Only a fetched,
        non-empty list replaces the chat's state. The cache load never
        raises (it returns `[]` on any exception), so the `Raises` case of
        `loaded` is reachable only with a loader that raises. */
    method Select(data: string, chatId: int, loaded: Call<seq<CatalogEntry>>, fetched: Call<seq<Episode>>)
      returns (reply: SelectReply)
      modifies this
      ensures SelectSession(data).None? ==> reply == BadSelect
      ensures SelectSession(data).Some? && loaded.Raises? ==> reply == SelectCrashed(loaded.message)
      ensures SelectSession(data).Some? && loaded.Returns? ==>
        var session := SelectSession(data).value;
        var title := TitleOf(loaded.value, session);
        match fetched
        case Raises(m) => reply == FetchFailed(m)
        case Returns(eps) =>
          reply == if eps == [] then NoEpisodes
                   else Menu(SessionData(session, title, eps), |eps|, Keyboard(MenuButtons(eps)))
      ensures reply.Menu? ==> store == old(store)[chatId := reply.chosen]
      ensures !reply.Menu? ==> store == old(store)
    {
      var parsed := SelectSession(data);
      if parsed.None? {
        return BadSelect;
      }
      var session := parsed.value;
      if loaded.Raises? {
        return SelectCrashed(loaded.message);
      }
      var title := LookupTitle(loaded.value, session);
      if fetched.Raises? {
        return FetchFailed(fetched.message);
      }
      var eps := fetched.value;
      if eps == [] {
        return NoEpisodes;
      }
      var chosen := SessionData(session, title, eps);
      store := store[chatId := chosen];
      var btns := EpisodeButtons(eps);
      reply := Menu(chosen, |eps|, Keyboard(btns));
    }

    /** `pick_episode_callback`: queues the first episode whose number is
        the payload's, for the chat's selection. */
    method Pick(data: string, chatId: int, userId: int) returns (reply: PickReply)
      ensures PickNumber(data).None? ==> reply == BadPick
      ensures PickNumber(data).Some? && chatId !in store ==> reply == Expired
      ensures PickNumber(data).Some? && chatId in store ==>
        var sd := store[chatId];
        match FirstNumbered(sd.episodes, PickNumber(data).value)
        case None => reply == NoSuchEpisode
        case Some(i) => reply == PickQueued(Queued(sd.title, sd.slug, [sd.episodes[i]], chatId, userId, "360", "jpn"))
    {
      var num := PickNumber(data);
      if num.None? {
        return BadPick;
      }
      if chatId !in store {
        return Expired;
      }
      var sd := store[chatId];
      var found := FirstNumbered(sd.episodes, num.value);
      if found.None? {
        return NoSuchEpisode;
      }
      return PickQueued(Queued(sd.title, sd.slug, [sd.episodes[found.value]], chatId, userId, "360", "jpn"));
    }

    /** `list_all_callback`: `None` is the expired-session reply. */
    method ListAll(chatId: int) returns (text: Option<string>)
      ensures chatId !in store <==> text.None?
      ensures chatId in store ==> text == Some(AllEpisodesText(store[chatId].episodes))
    {
      if chatId !in store {
        return None;
      }
      return Some(AllEpisodesText(store[chatId].episodes));
    }

    /** `spec_reply_handler`: a plain message sent while a selection is
        stored. */
    method SpecMessage(text: string, chatId: int, senderId: int) returns (reply: SpecReply)
      ensures chatId !in store ==> reply == NotInFlow
      ensures chatId in store && !Validate(text) ==> reply == InvalidSpec
      ensures chatId in store && Validate(text) ==>
        var sd := store[chatId];
        match Chosen(sd.episodes, n => Wanted(Strip(text), n))
        case None => reply == SpecRaises
        case Some(chosen) =>
          reply == if chosen == [] then NoMatch
                   else SpecQueued(Queued(sd.title, sd.slug, chosen, chatId, senderId, "360", "jpn"))
    {
      if chatId !in store {
        return NotInFlow;
      }
      var sd := store[chatId];
      var spec := Strip(text);
      StripTwice(text);
      if !Validate(spec) {
        return InvalidSpec;
      }
      var chosen := ChooseEpisodes(spec, sd.episodes);
      if chosen.None? {
        return SpecRaises;
      }
      if chosen.value == [] {
        return NoMatch;
      }
      return SpecQueued(Queued(sd.title, sd.slug, chosen.value, chatId, senderId, "360", "jpn"));
    }
  }

  /** `expand_episode_spec_to_list(spec)` followed by the comprehension
      over the episodes, for a spec that has been validated. */
  method ChooseEpisodes(spec: string, eps: seq<Episode>) returns (chosen: Option<seq<Episode>>)
    requires Strip(spec) == spec && Validate(spec)
    ensures chosen == Chosen(eps, n => Wanted(spec, n))
  {
    StripTwice(spec);
    ValidSpecParses(spec);
    var desired := Expand(spec);
    var ds := desired.value;
    chosen := Chosen(eps, n => n in ds);
    match Numbers(eps)
    case None =>
    case Some(ns) =>
      PicksAgree(ns, n => n in ds, n => Wanted(spec, n));
  }

  /** `download_command`: `fetched` is the provider's episode list for
      the slug (an exception counts as an empty list), `loaded` the cache
      load used for the title. The loader turns every exception into
      `[]`, so its result is always `Returns`; the `Raises` case stands for
      a loader that raises. */
  method Download(slugText: string, specText: string, fetched: Call<seq<Episode>>,
                  loaded: Call<seq<CatalogEntry>>, chatId: int, userId: int)
    returns (reply: SpecReply)
    ensures !Validate(specText) ==> reply == InvalidSpec
    ensures Validate(specText) && (fetched.Raises? || fetched.value == []) ==> reply == Couldnt
    ensures Validate(specText) && fetched.Returns? && fetched.value != [] ==>
      var eps := fetched.value;
      var slug := Strip(slugText);
      match Chosen(eps, n => Wanted(Strip(specText), n))
      case None => reply == SpecRaises
      case Some(chosen) =>
        if chosen == [] then reply == NoMatch
        else match loaded
          case Raises(_) => reply == Abandoned
          case Returns(results) =>
            reply == SpecQueued(Queued(Some(SlugTitle(results, slug)), slug, chosen, chatId, userId,
                                       DEFAULT_QUALITY, DEFAULT_AUDIO))
  {
    var slug := Strip(slugText);
    var spec := Strip(specText);
    StripTwice(specText);
    if !Validate(spec) {
      return InvalidSpec;
    }
    if fetched.Raises? || fetched.value == [] {
      return Couldnt;
    }
    var chosen := ChooseEpisodes(spec, fetched.value);
    if chosen.None? {
      return SpecRaises;
    }
    if chosen.value == [] {
      return NoMatch;
    }
    if loaded.Raises? {
      return Abandoned;
    }
    var title := DownloadTitle(loaded.value, slug);
    return SpecQueued(Queued(Some(title), slug, chosen.value, chatId, userId, DEFAULT_QUALITY, DEFAULT_AUDIO));
  }

}
