/** `/list` (`commands/list.py`): the uploads of a title, found exactly or
    through a fuzzy match against the distinct titles of the ledger, and the
    "View uploads" buttons that list one title. The ledger is the record
    sequence of `Ledger`; the date formatting of `created_at` is an input. */
module ListCommand {
  import opened Common
  import opened Text
  import opened Constants
  import opened Sorting
  import opened Ranking
  import opened Ledger
  import opened Bot

  /** How many candidate titles the fuzzy path shows. */
  const MAX_CANDIDATES: nat := 10
  /** The listing limit of a "View uploads" button. */
  const BY_TITLE_LIMIT: nat := 500

  const TRUNCATED_MARKER: string := "\n...truncated..."

  // ------------------------------------------------------------- quoting

  /** The characters `quote_plus` never escapes. */
  predicate Unreserved(c: char)
  {
    || 'a' <= c <= 'z' || 'A' <= c <= 'Z' || '0' <= c <= '9'
    || c == '_' || c == '.' || c == '-' || c == '~'
  }

  function HexDigit(n: int): (r: char)
    requires 0 <= n < 16
    ensures HexValue(r) == Some(n)
  {
    if n < 10 then ('0' as int + n) as char else ('A' as int + n - 10) as char
  }

  function HexValue(c: char): (r: Option<int>)
    ensures r.Some? ==> 0 <= r.value < 16
  {
    if '0' <= c <= '9' then Some(c as int - '0' as int)
    else if 'a' <= c <= 'f' then Some(c as int - 'a' as int + 10)
    else if 'A' <= c <= 'F' then Some(c as int - 'A' as int + 10)
    else None
  }

  /** One character of `quote_plus`: itself when unreserved, `+` for a
      space, `%XY` (upper-case hex) for any other ASCII character. */
  function QuoteChar(c: char): string
  {
    if Unreserved(c) then [c]
    else if c == ' ' then "+"
    else if c as int < 128 then "%" + [HexDigit(c as int / 16), HexDigit(c as int % 16)]
    else [c]
  }

  /** `urllib.parse.quote_plus(s)` */
  function Quote(s: string): string
  {
    if s == [] then [] else QuoteChar(s[0]) + Quote(s[1..])
  }

  /** `urllib.parse.unquote_plus(s)`: `+` is a space, `%XY` with two hex
      digits is the byte `XY`, anything else stands for itself. A byte
      outside ASCII decodes to the replacement character. */
  function Unquote(s: string): string
    decreases |s|
  {
    if s == [] then []
    else if s[0] == '+' then " " + Unquote(s[1..])
    else if s[0] == '%' && |s| >= 3 && HexValue(s[1]).Some? && HexValue(s[2]).Some? then
      var b := 16 * HexValue(s[1]).value + HexValue(s[2]).value;
      [if b < 128 then b as char else '\U{FFFD}'] + Unquote(s[3..])
    else [s[0]] + Unquote(s[1..])
  }

  lemma UnquoteChar(c: char, rest: string)
    ensures Unquote(QuoteChar(c) + rest) == [c] + Unquote(rest)
  {
    var q := QuoteChar(c);
    if Unreserved(c) || (c as int >= 128 && c != ' ') {
      assert q + rest == [c] + rest;
      assert (q + rest)[1..] == rest;
    } else if c == ' ' {
      assert (q + rest)[1..] == rest;
    } else {
      var hi, lo := c as int / 16, c as int % 16;
      assert q + rest == ['%', HexDigit(hi), HexDigit(lo)] + rest;
      assert (q + rest)[3..] == rest;
    }
  }

  /** Unquoting gives back the quoted text, and the quoted text holds no
      `|`, so it survives the payload split. */
  lemma {:induction false} QuoteRoundTrip(s: string)
    ensures Unquote(Quote(s)) == s
    ensures '|' !in Quote(s)
  {
    if s != [] {
      QuoteRoundTrip(s[1..]);
      UnquoteChar(s[0], Quote(s[1..]));
      assert s == [s[0]] + s[1..];
    }
  }

  // ------------------------------------------------------------ listings

  /** `f"Ep {r.episode} — {r.filename} ({r.created_at:%Y-%m-%d %H:%M})"`,
      with `stamp` the date formatting. */
  function UploadLine(r: Record, stamp: int -> string): string
  {
    "Ep " + IntText(r.episode) + " \U{2014} " + r.filename + " (" + stamp(r.createdAt) + ")"
  }

  function UploadLines(rows: seq<Record>, stamp: int -> string): (r: seq<string>)
    ensures |r| == |rows| && forall i :: 0 <= i < |rows| ==> r[i] == UploadLine(rows[i], stamp)
  {
    seq(|rows|, i requires 0 <= i < |rows| => UploadLine(rows[i], stamp))
  }

  /** The detailed list of a title's rows, cut to fit one message. */
  function DetailText(rows: seq<Record>, stamp: int -> string): (r: string)
    ensures |r| <= MAX_MESSAGE_LENGTH
  {
    Truncate(Join(UploadLines(rows, stamp), '\n'), MAX_MESSAGE_LENGTH, TRUNCATED_MESSAGE_LENGTH, TRUNCATED_MARKER)
  }

  // ------------------------------------------------------------- summary

  /** An entry of `lang_counts`. */
  datatype LangCount = LangCount(lang: string, count: nat)

  function NegCount(c: LangCount): int
  {
    -(c.count as int)
  }

  function Total(cs: seq<LangCount>): nat
  {
    if cs == [] then 0 else Total(cs[..|cs| - 1]) + cs[|cs| - 1].count
  }

  /** `f"{lang.upper()}: {cnt}"` by descending count. */
  function LangParts(cs: seq<LangCount>): (r: seq<string>)
  {
    var sorted := SortBy(cs, NegCount);
    seq(|sorted|, i requires 0 <= i < |sorted| => Upper(sorted[i].lang) + ": " + IntText(sorted[i].count))
  }

  /** `", ".join(lang_parts) if lang_parts else "unknown"` */
  function LangText(cs: seq<LangCount>): string
  {
    if cs == [] then "unknown" else JoinWith(LangParts(cs), ", ")
  }

  /** One summary line of a candidate title. */
  function SummaryLine(title: string, cs: seq<LangCount>): string
  {
    title + " \U{2014} " + IntText(Total(cs)) + " uploaded \U{2014} langs: " + LangText(cs)
  }

  /** `lang_to_eps` is never filled, so every candidate's line claims
      nothing uploaded and unknown languages, whatever its rows. */
  lemma UnfilledSummary(title: string)
    ensures SummaryLine(title, []) == title + " \U{2014} " + "0" + " uploaded \U{2014} langs: " + "unknown"
  {
    assert Total([]) == 0 && LangText([]) == "unknown";
    assert IntText(0) == "0" by {
      assert DigitChar(0) == '0';
    }
  }

  /** The callback data of a "View uploads" button. */
  function ViewPayload(title: string): string
  {
    "LIST_BY_TITLE|" + Quote(title)
  }

  function ViewButtons(titles: seq<string>): (r: seq<seq<Button>>)
    ensures |r| == |titles| && forall i :: 0 <= i < |titles| ==> r[i] == [Button("View uploads", ViewPayload(titles[i]))]
  {
    seq(|titles|, i requires 0 <= i < |titles| => [Button("View uploads", ViewPayload(titles[i]))])
  }

  function SummaryLines(titles: seq<string>): (r: seq<string>)
    ensures |r| == |titles| && forall i :: 0 <= i < |titles| ==> r[i] == SummaryLine(titles[i], [])
  {
    seq(|titles|, i requires 0 <= i < |titles| => SummaryLine(titles[i], []))
  }

  /** The summary message, cut to fit one message. */
  function SummaryText(titles: seq<string>): (r: string)
    ensures |r| <= MAX_MESSAGE_LENGTH
  {
    Truncate("Search results:\n\n" + Join(SummaryLines(titles), '\n'), MAX_MESSAGE_LENGTH, TRUNCATED_MESSAGE_LENGTH + 100, TRUNCATED_MARKER)
  }

  // ------------------------------------------------------------ handlers

  function Itself(t: string): string
  {
    t
  }

  /** The fuzzy candidates: the titles of the ledger that score above 0
      against the query, the ten best first. */
  function TopTitles(rs: seq<Record>, query: string): seq<string>
  {
    ItemsOf(Ranked(DistinctTitles(rs), Itself, query, MAX_CANDIDATES))
  }

  /** At most ten candidates, each a title of some row that scores above 0,
      best first. */
  lemma TopTitlesMeaning(rs: seq<Record>, query: string)
    ensures var top := TopTitles(rs, query);
            && |top| <= MAX_CANDIDATES
            && (forall i :: 0 <= i < |top| ==> Fuzzy.Score(top[i], query) > 0 && exists j :: 0 <= j < |rs| && rs[j].animeTitle == top[i])
            && (forall i, j :: 0 <= i < j < |top| ==> Fuzzy.Score(top[i], query) >= Fuzzy.Score(top[j], query))
  {
    RankedMeaning(DistinctTitles(rs), Itself, query, MAX_CANDIDATES);
    var r := Ranked(DistinctTitles(rs), Itself, query, MAX_CANDIDATES);
    assert forall i :: 0 <= i < |r| ==> r[i].item in DistinctTitles(rs);
  }

  datatype ListReply =
    | Exact(text: string)
    | NoCandidates(query: string)
    | Candidates(text: string, buttons: seq<seq<Button>>)

  /** `list_command`: the exact listing when the title has rows, otherwise
      the fuzzy candidates with one button each. */
  method List(queryText: string, rs: seq<Record>, stamp: int -> string) returns (reply: ListReply)
    ensures var query := Strip(queryText);
            var rows := ListForAnime(rs, query, EXTENDED_QUERY_LIMIT);
            && (rows != [] ==> reply == Exact("Uploads for exact title: " + query + "\n\n" + DetailText(rows, stamp)))
            && (rows == [] && Positive(DistinctTitles(rs), Itself, query) == [] ==> reply == NoCandidates(query))
            && (rows == [] && Positive(DistinctTitles(rs), Itself, query) != [] ==>
                  reply == Candidates(SummaryText(TopTitles(rs, query)), ViewButtons(TopTitles(rs, query))))
  {
    var query := Strip(queryText);
    var rows := ListForAnime(rs, query, EXTENDED_QUERY_LIMIT);
    if rows != [] {
      return Exact("Uploads for exact title: " + query + "\n\n" + DetailText(rows, stamp));
    }
    var scored := ScoreAll(DistinctTitles(rs), Itself, query);
    if scored == [] {
      return NoCandidates(query);
    }
    var top := BestTitles(scored);
    var msg, buttons := Summary(top);
    return Candidates(msg, buttons);
  }

  /** `scored.sort(key=..., reverse=True)` in place, then the first ten
      titles. */
  method BestTitles(scored: seq<Scored<string>>) returns (top: seq<string>)
    ensures top == ItemsOf(Take(SortBy(scored, NegScore), MAX_CANDIDATES))
  {
    var a := new Scored<string>[|scored|](i requires 0 <= i < |scored| => scored[i]);
    assert a[..] == scored;
    SortInPlace(a, NegScore);
    top := ItemsOf(Take(a[..], MAX_CANDIDATES));
  }

  /** The summary loop: one line and one button per candidate. */
  method Summary(top: seq<string>) returns (msg: string, buttons: seq<seq<Button>>)
    ensures msg == SummaryText(top) && buttons == ViewButtons(top)
  {
    var lines: seq<string> := [];
    buttons := [];
    for k := 0 to |top|
      invariant |lines| == |buttons| == k
      invariant forall i :: 0 <= i < k ==> lines[i] == SummaryLine(top[i], [])
      invariant forall i :: 0 <= i < k ==> buttons[i] == [Button("View uploads", ViewPayload(top[i]))]
    {
      // the per-title listing (limit MAX_QUERY_LIMIT) feeds only the empty `lang_to_eps`
      lines := lines + [SummaryLine(top[k], [])];
      buttons := buttons + [[Button("View uploads", ViewPayload(top[k]))]];
    }
    assert lines == SummaryLines(top);
    msg := Truncate("Search results:\n\n" + Join(lines, '\n'), MAX_MESSAGE_LENGTH, TRUNCATED_MESSAGE_LENGTH + 100, TRUNCATED_MARKER);
  }

  datatype ByTitleReply =
    | InvalidPayload
    | NoUploads(title: string)
    | Uploads(text: string)

  /** `list_by_title_callback`: the payload is split at its first `|` and
      the rest unquoted into the title whose rows are listed. */
  function ByTitle(data: string, rs: seq<Record>, stamp: int -> string): (r: ByTitleReply)
    ensures r == InvalidPayload <==> '|' !in data
  {
    var parts := SplitMax(data, '|', 1);
    if |parts| < 2 then InvalidPayload
    else
      var title := Unquote(parts[1]);
      var rows := ListForAnime(rs, title, BY_TITLE_LIMIT);
      if rows == [] then NoUploads(title)
      else Uploads("Uploads for " + title + ":\n\n" + DetailText(rows, stamp))
  }

  /** A "View uploads" button lists exactly the rows of its own title. */
  lemma ViewRoundTrip(title: string, rs: seq<Record>, stamp: int -> string)
    ensures var rows := ListForAnime(rs, title, BY_TITLE_LIMIT);
            ByTitle(ViewPayload(title), rs, stamp)
              == if rows == [] then NoUploads(title) else Uploads("Uploads for " + title + ":\n\n" + DetailText(rows, stamp))
  {
    var data := ViewPayload(title);
    QuoteRoundTrip(title);
    assert data[13] == '|' && '|' !in data[..13];
    assert IndexOf(data, '|') == Some(13);
    assert data[14..] == Quote(title);
  }
}
