/** Episode specifications such as `1-3,5` (`validate_episode_spec`,
    `expand_episode_spec_to_list` and `pick_episodes_from_episode_list`). */
module EpisodeSpec {
  import opened Common
  import opened Text

  // ------------------------------------------------------------ validation

  /** `\d+`: one or more ASCII digits. */
  predicate Number(s: string)
  {
    |s| > 0 && AllDigits(s)
  }

  /** `\d+(-\d+)?` */
  predicate ValidToken(p: string)
  {
    var h := Split(p, '-');
    (|h| == 1 || |h| == 2) && Number(h[0]) && Number(h[|h| - 1])
  }

  /** `^\d+(-\d+)?(,\d+(-\d+)?)*$` matched against the whole string. */
  predicate ValidSpec(t: string)
  {
    var parts := Split(t, ',');
    forall k :: 0 <= k < |parts| ==> ValidToken(parts[k])
  }

  /** `validate_episode_spec(spec)`: the stripped text matches the grammar. */
  predicate Validate(spec: string)
  {
    ValidSpec(Strip(spec))
  }

  /** The same grammar as a syntax tree: the token list a spec is written
      from. */
  datatype Token = Single(n: string) | Span(lo: string, hi: string)

  predicate WellFormedToken(t: Token)
  {
    match t
    case Single(n) => Number(n)
    case Span(a, b) => Number(a) && Number(b)
  }

  function RenderToken(t: Token): string
  {
    match t
    case Single(n) => n
    case Span(a, b) => a + "-" + b
  }

  function RenderAll(ts: seq<Token>): (r: seq<string>)
    ensures |r| == |ts|
    ensures forall k :: 0 <= k < |ts| ==> r[k] == RenderToken(ts[k])
  {
    if ts == [] then [] else [RenderToken(ts[0])] + RenderAll(ts[1..])
  }

  /** Tokens joined by commas. */
  function Render(ts: seq<Token>): string
  {
    Join(RenderAll(ts), ',')
  }

  lemma NoSepSplit(s: string, c: char)
    requires c !in s
    ensures Split(s, c) == [s]
  {
  }

  lemma DigitsNoSep(s: string, c: char)
    requires AllDigits(s) && !IsDigit(c)
    ensures c !in s
  {
    forall i | 0 <= i < |s| ensures s[i] != c {
      assert IsDigit(s[i]);
    }
  }

  lemma RenderTokenValid(t: Token)
    requires WellFormedToken(t)
    ensures ValidToken(RenderToken(t))
    ensures ',' !in RenderToken(t)
  {
    match t
    case Single(n) =>
      DigitsNoSep(n, '-');
      DigitsNoSep(n, ',');
      NoSepSplit(n, '-');
    case Span(a, b) =>
      DigitsNoSep(a, '-');
      DigitsNoSep(b, '-');
      DigitsNoSep(a, ',');
      DigitsNoSep(b, ',');
      assert Join([a, b], '-') == a + "-" + b;
      SplitJoin([a, b], '-');
  }

  /** Every non-empty list of well-formed tokens renders to a valid spec. */
  lemma RenderIsValid(ts: seq<Token>)
    requires |ts| >= 1
    requires forall k :: 0 <= k < |ts| ==> WellFormedToken(ts[k])
    ensures ValidSpec(Render(ts))
  {
    var parts := RenderAll(ts);
    forall k | 0 <= k < |parts| ensures ValidToken(parts[k]) && ',' !in parts[k] {
      RenderTokenValid(ts[k]);
    }
    SplitJoin(parts, ',');
  }

  /** The token a valid piece is written from. */
  function TokenOf(p: string): (t: Token)
    requires ValidToken(p)
    ensures WellFormedToken(t) && RenderToken(t) == p
  {
    var h := Split(p, '-');
    JoinSplit(p, '-');
    if |h| == 1 then Single(h[0])
    else
      assert Join(h, '-') == h[0] + "-" + h[1];
      Span(h[0], h[1])
  }

  function TokensOf(parts: seq<string>): (ts: seq<Token>)
    requires forall k :: 0 <= k < |parts| ==> ValidToken(parts[k])
    ensures |ts| == |parts|
    ensures forall k :: 0 <= k < |ts| ==> WellFormedToken(ts[k]) && RenderToken(ts[k]) == parts[k]
  {
    if parts == [] then [] else [TokenOf(parts[0])] + TokensOf(parts[1..])
  }

  /** A valid spec is the rendering of its own tokens, so `ValidSpec` accepts
      exactly the renderings of non-empty token lists. */
  lemma ValidIsRendered(t: string)
    requires ValidSpec(t)
    ensures var ts := TokensOf(Split(t, ','));
      |ts| >= 1 && Render(ts) == t
  {
    var ts := TokensOf(Split(t, ','));
    assert RenderAll(ts) == Split(t, ',');
    JoinSplit(t, ',');
  }

  lemma ValidSpecIffRendered(t: string)
    ensures ValidSpec(t) <==>
      exists ts: seq<Token> :: |ts| >= 1 && (forall k :: 0 <= k < |ts| ==> WellFormedToken(ts[k])) && Render(ts) == t
  {
    if ValidSpec(t) {
      ValidIsRendered(t);
      var ts := TokensOf(Split(t, ','));
      assert |ts| >= 1 && (forall k :: 0 <= k < |ts| ==> WellFormedToken(ts[k])) && Render(ts) == t;
    }
    if exists ts: seq<Token> :: |ts| >= 1 && (forall k :: 0 <= k < |ts| ==> WellFormedToken(ts[k])) && Render(ts) == t {
      var ts: seq<Token> :| |ts| >= 1 && (forall k :: 0 <= k < |ts| ==> WellFormedToken(ts[k])) && Render(ts) == t;
      RenderIsValid(ts);
    }
  }

  lemma StripEnds(p: string)
    requires p != [] && !IsSpace(p[0]) && !IsSpace(p[|p| - 1])
    ensures Strip(p) == p
  {
  }

  lemma EmptyNotToken()
    ensures !ValidToken("")
  {
    assert Split("", '-') == [""];
  }

  /** The rejections the grammar promises: the empty spec, a dangling range,
      letters and a trailing comma. */
  lemma RejectsEmpty()
    ensures !Validate("")
  {
    assert Strip("") == "";
    assert Split("", ',') == [""];
    EmptyNotToken();
  }

  lemma RejectsOpenRange()
    ensures !Validate("1-")
  {
    var t := "1-";
    assert Strip(t) == t by { StripEnds(t); }
    NoSepSplit(t, ',');
    IndexOfFirst(t, '-', 1);
    assert t[..1] == "1" && t[2..] == "";
    assert Split("", '-') == [""];
    assert Split(t, '-') == ["1", ""];
    assert !ValidToken(Split(t, ',')[0]);
  }

  lemma RejectsLetters()
    ensures !Validate("a,b")
  {
    var t := "a,b";
    assert Strip(t) == t by { StripEnds(t); }
    IndexOfFirst(t, ',', 1);
    assert t[..1] == "a";
    assert Split(t, ',')[0] == "a";
    assert Split("a", '-') == ["a"];
  }

  lemma RejectsTrailingComma()
    ensures !Validate("1,")
  {
    var t := "1,";
    assert Strip(t) == t by { StripEnds(t); }
    IndexOfFirst(t, ',', 1);
    assert t[..1] == "1" && t[2..] == "";
    assert Split(t, ',') == ["1"] + Split("", ',');
    assert Split(t, ',')[1] == "";
    EmptyNotToken();
  }

  // ------------------------------------------------------------- expansion

  /** The episode numbers one part stands for: `a-b` is `range(a, b + 1)`,
      a single `n` is `n..n`. */
  datatype Range = Range(lo: int, hi: int)

  /** `[p.strip() for p in spec.split(",") if p.strip()]` */
  function NonEmptyStripped(ps: seq<string>): (r: seq<string>)
    ensures forall k :: 0 <= k < |r| ==> r[k] != []
  {
    if ps == [] then []
    else
      var t := Strip(ps[0]);
      (if t == [] then [] else [t]) + NonEmptyStripped(ps[1..])
  }

  function Parts(spec: string): seq<string>
  {
    NonEmptyStripped(Split(spec, ','))
  }

  /** One part: with a `-` it is `start, end = part.split("-", 1)` and both
      go through `int()`; otherwise the part itself does. `None` is the
      `ValueError`. */
  function ParsePart(p: string): Option<Range>
  {
    match IndexOf(p, '-')
    case Some(i) =>
      (match (PyInt(p[..i]), PyInt(p[i + 1..]))
       case (Some(a), Some(b)) => Some(Range(a, b))
       case _ => None)
    case None =>
      (match PyInt(p)
       case Some(n) => Some(Range(n, n))
       case None => None)
  }

  /** The parts parsed left to right; `None` as soon as one part fails. */
  function ParseAll(ps: seq<string>): Option<seq<Range>>
  {
    if ps == [] then Some([])
    else match ParseAll(ps[..|ps| - 1])
      case None => None
      case Some(rs) =>
        match ParsePart(ps[|ps| - 1])
        case None => None
        case Some(g) => Some(rs + [g])
  }

  function ParseSpec(spec: string): Option<seq<Range>>
  {
    ParseAll(Parts(spec))
  }

  /** `n` is produced by some part. */
  ghost predicate Covers(rs: seq<Range>, n: int)
  {
    exists k :: 0 <= k < |rs| && rs[k].lo <= n <= rs[k].hi
  }

  lemma CoversAppend(rs: seq<Range>, g: Range)
    ensures forall n :: Covers(rs + [g], n) <==> Covers(rs, n) || g.lo <= n <= g.hi
  {
    forall n ensures Covers(rs + [g], n) <==> Covers(rs, n) || g.lo <= n <= g.hi {
      if Covers(rs, n) {
        var j :| 0 <= j < |rs| && rs[j].lo <= n <= rs[j].hi;
        assert (rs + [g])[j] == rs[j];
      }
      if g.lo <= n <= g.hi {
        assert (rs + [g])[|rs|] == g;
      }
    }
  }

  predicate StrictlyAscending(s: seq<int>)
  {
    forall i, j :: 0 <= i < j < |s| ==> s[i] < s[j]
  }

  lemma ParseAllNoneExtends(ps: seq<string>, k: nat)
    requires k <= |ps| && ParseAll(ps[..k]).None?
    ensures ParseAll(ps).None?
    decreases |ps| - k
  {
    if k < |ps| {
      assert ps[..k + 1][..k] == ps[..k];
      ParseAllNoneExtends(ps, k + 1);
    } else {
      assert ps[..k] == ps;
    }
  }

  lemma ParseAllStep(ps: seq<string>, k: nat)
    requires k < |ps|
    ensures ParseAll(ps[..k + 1]) ==
      match ParseAll(ps[..k])
      case None => None
      case Some(rs) =>
        match ParsePart(ps[k])
        case None => None
        case Some(g) => Some(rs + [g])
  {
    assert ps[..k + 1][..k] == ps[..k];
  }

  /** `for i in range(a, b + 1): eps.add(i)` */
  method AddRange(eps: set<int>, a: int, b: int) returns (r: set<int>)
    ensures forall n :: n in r <==> n in eps || a <= n <= b
  {
    r := eps;
    var i := a;
    while i <= b
      invariant a <= i <= b + 1 || (b < a && i == a)
      invariant forall n :: n in r <==> n in eps || a <= n < i
      decreases b - i
    {
      r := r + {i};
      i := i + 1;
    }
  }

  /** Adds one part's numbers to `eps`, keeping track of bounds for `eps`. */
  method AddPart(eps: set<int>, lo: int, hi: int, g: Range) returns (eps': set<int>, lo': int, hi': int)
    requires forall n :: n in eps ==> lo <= n <= hi
    ensures forall n :: n in eps' <==> n in eps || g.lo <= n <= g.hi
    ensures forall n :: n in eps' ==> lo' <= n <= hi'
  {
    lo', hi' := lo, hi;
    if g.lo <= g.hi {
      if eps == {} {
        lo', hi' := g.lo, g.hi;
      } else {
        lo', hi' := if g.lo < lo then g.lo else lo, if g.hi > hi then g.hi else hi;
      }
    }
    eps' := AddRange(eps, g.lo, g.hi);
  }

  /** `sorted(eps)` for a set whose elements lie in `lo..hi`. */
  method SortedSet(eps: set<int>, lo: int, hi: int) returns (r: seq<int>)
    requires forall n :: n in eps ==> lo <= n <= hi
    ensures StrictlyAscending(r)
    ensures forall n :: n in r <==> n in eps
  {
    r := [];
    var n := lo;
    while n <= hi
      invariant lo <= n <= hi + 1 || (hi < lo && n == lo)
      invariant forall m :: m in r <==> m in eps && m < n
      invariant forall i :: 0 <= i < |r| ==> r[i] < n
      invariant StrictlyAscending(r)
      decreases hi - n
    {
      if n in eps {
        r := r + [n];
      }
      n := n + 1;
    }
  }

  /** `expand_episode_spec_to_list(spec)`: the numbers of every part,
      collected in a set and returned sorted. `None` is the `ValueError`
      that `int()` raises on a part that is not a number. */
  method Expand(spec: string) returns (r: Option<seq<int>>)
    ensures r.None? <==> ParseSpec(spec).None?
    ensures r.Some? ==> StrictlyAscending(r.value)
    ensures r.Some? ==> forall n :: n in r.value <==> Covers(ParseSpec(spec).value, n)
  {
    var eps, lo, hi := Collect(Parts(spec));
    if eps.None? {
      return None;
    }
    var sorted := SortedSet(eps.value, lo, hi);
    return Some(sorted);
  }

  /** The loop of `expand_episode_spec_to_list` over the parts, with bounds
      `lo..hi` of the collected set. */
  method Collect(parts: seq<string>) returns (eps: Option<set<int>>, lo: int, hi: int)
    ensures eps.None? <==> ParseAll(parts).None?
    ensures eps.Some? ==> forall n :: n in eps.value <==> Covers(ParseAll(parts).value, n)
    ensures eps.Some? ==> forall n :: n in eps.value ==> lo <= n <= hi
  {
    var acc: set<int> := {};
    lo, hi := 0, -1;
    ghost var rs: seq<Range> := [];
    var k := 0;
    while k < |parts|
      invariant 0 <= k <= |parts|
      invariant ParseAll(parts[..k]) == Some(rs)
      invariant forall n :: n in acc <==> Covers(rs, n)
      invariant forall n :: n in acc ==> lo <= n <= hi
    {
      ParseAllStep(parts, k);
      var g := ParsePart(parts[k]);
      if g.None? {
        ParseAllNoneExtends(parts, k + 1);
        return None, lo, hi;
      }
      acc, lo, hi := AddPart(acc, lo, hi, g.value);
      CoversAppend(rs, g.value);
      rs := rs + [g.value];
      k := k + 1;
    }
    assert parts[..k] == parts;
    return Some(acc), lo, hi;
  }

  /** A valid (already stripped) spec always expands: its ranges are exactly
      its tokens' numbers. */
  lemma ValidSpecParses(spec: string)
    requires Strip(spec) == spec && ValidSpec(spec)
    ensures ParseSpec(spec).Some?
  {
    var pieces := Split(spec, ',');
    forall k | 0 <= k < |pieces| ensures ParsePart(pieces[k]).Some? && Strip(pieces[k]) == pieces[k] && pieces[k] != [] {
      ValidTokenParses(pieces[k]);
    }
    NonEmptyStrippedId(pieces);
    ParseAllSome(pieces);
  }

  lemma ValidTokenParses(p: string)
    requires ValidToken(p)
    ensures ParsePart(p).Some? && Strip(p) == p && p != []
  {
    match TokenOf(p)
    case Single(n) => SingleParses(n);
    case Span(a, b) => SpanParses(a, b);
  }

  lemma SingleParses(n: string)
    requires Number(n)
    ensures ParsePart(n) == Some(Range(DigitsValue(n), DigitsValue(n))) && Strip(n) == n
  {
    DigitsNoSep(n, '-');
    PyIntDigits(n);
    AllDigitsNoSpace(n);
    StripNoSpace(n);
  }

  lemma SpanParses(a: string, b: string)
    requires Number(a) && Number(b)
    ensures ParsePart(a + "-" + b) == Some(Range(DigitsValue(a), DigitsValue(b)))
    ensures Strip(a + "-" + b) == a + "-" + b
  {
    SpanSplits(a, b);
    PyIntDigits(a);
    PyIntDigits(b);
    SpanNoSpace(a, b);
  }

  lemma SpanSplits(a: string, b: string)
    requires Number(a)
    ensures var p := a + "-" + b;
      IndexOf(p, '-') == Some(|a|) && p[..|a|] == a && p[|a| + 1..] == b
  {
    var p := a + "-" + b;
    DigitsNoSep(a, '-');
    assert p[..|a|] == a && p[|a| + 1..] == b;
    IndexOfFirst(p, '-', |a|);
  }

  lemma SpanNoSpace(a: string, b: string)
    requires Number(a) && Number(b)
    ensures Strip(a + "-" + b) == a + "-" + b
  {
    var p := a + "-" + b;
    assert !IsSpace(p[0]) by { assert p[0] == a[0]; }
    assert !IsSpace(p[|p| - 1]) by { assert p[|p| - 1] == b[|b| - 1]; }
    StripEnds(p);
  }

  lemma NonEmptyStrippedId(ps: seq<string>)
    requires forall k :: 0 <= k < |ps| ==> ps[k] != [] && Strip(ps[k]) == ps[k]
    ensures NonEmptyStripped(ps) == ps
  {
    if ps != [] {
      NonEmptyStrippedId(ps[1..]);
    }
  }

  lemma {:induction false} ParseAllSome(ps: seq<string>)
    requires forall k :: 0 <= k < |ps| ==> ParsePart(ps[k]).Some?
    ensures ParseAll(ps).Some?
  {
    if ps != [] {
      ParseAllSome(ps[..|ps| - 1]);
    }
  }

  // --------------------------------------------------------------- picking

  /** `int(ep["episode"])` for every entry; `None` when one of them raises
      `ValueError`. */
  function Numbers(eps: seq<Episode>): (r: Option<seq<int>>)
    ensures r.Some? ==> |r.value| == |eps| && forall k :: 0 <= k < |eps| ==> PyInt(eps[k].number) == Some(r.value[k])
    ensures r.None? ==> exists k :: 0 <= k < |eps| && PyInt(eps[k].number).None?
  {
    var r := AllOf(eps, NumberOf);
    assert forall k :: 0 <= k < |eps| ==> NumberOf(eps[k]) == PyInt(eps[k].number);
    r
  }

  function NumberOf(e: Episode): Option<int>
  {
    PyInt(e.number)
  }

  /** `f` applied to every element, failing as soon as one application fails. */
  function AllOf<T>(xs: seq<T>, f: T -> Option<int>): (r: Option<seq<int>>)
    ensures r.Some? ==> |r.value| == |xs| && forall k :: 0 <= k < |xs| ==> f(xs[k]) == Some(r.value[k])
    ensures r.None? ==> exists k :: 0 <= k < |xs| && f(xs[k]).None?
  {
    if xs == [] then Some([])
    else match f(xs[0])
      case None => None
      case Some(n) =>
        var rest := AllOf(xs[1..], f);
        AllOfTail(xs, f, rest);
        match rest
        case None => None
        case Some(ns) => Some([n] + ns)
  }

  /** What `AllOf(xs[1..], f)` says about `xs` itself. */
  lemma AllOfTail<T>(xs: seq<T>, f: T -> Option<int>, rest: Option<seq<int>>)
    requires xs != []
    requires rest.Some? ==> |rest.value| == |xs| - 1 && forall k :: 0 <= k < |xs| - 1 ==> f(xs[1..][k]) == Some(rest.value[k])
    requires rest.None? ==> exists k :: 0 <= k < |xs| - 1 && f(xs[1..][k]).None?
    ensures rest.Some? ==> forall k :: 1 <= k < |xs| ==> f(xs[k]) == Some(rest.value[k - 1])
    ensures rest.None? ==> exists k :: 1 <= k < |xs| && f(xs[k]).None?
  {
    if rest.None? {
      var k :| 0 <= k < |xs| - 1 && f(xs[1..][k]).None?;
      assert xs[1..][k] == xs[k + 1];
    } else {
      forall k | 1 <= k < |xs| ensures f(xs[k]) == Some(rest.value[k - 1]) {
        assert xs[1..][k - 1] == xs[k];
      }
    }
  }

  /** The dictionary built from number/episode pairs in order, so a later
      pair overwrites an earlier one with the same number. */
  function BuildIndex(ns: seq<int>, eps: seq<Episode>): map<int, Episode>
    requires |ns| == |eps|
  {
    if ns == [] then map[]
    else BuildIndex(ns[..|ns| - 1], eps[..|eps| - 1])[ns[|ns| - 1] := eps[|eps| - 1]]
  }

  /** `{int(ep["episode"]): ep for ep in available_eps}` */
  function Index(eps: seq<Episode>): Option<map<int, Episode>>
  {
    match Numbers(eps)
    case None => None
    case Some(ns) => Some(BuildIndex(ns, eps))
  }

  /** The keys of the index are exactly the numbers, and each maps to the
      last pair carrying it: later entries win. */
  lemma {:induction false} BuildIndexLastWins(ns: seq<int>, eps: seq<Episode>)
    requires |ns| == |eps|
    ensures forall n :: n in BuildIndex(ns, eps) <==> n in ns
    ensures forall n :: n in BuildIndex(ns, eps) ==>
      exists k :: (0 <= k < |ns| && ns[k] == n && BuildIndex(ns, eps)[n] == eps[k]
        && (forall j :: k < j < |ns| ==> ns[j] != n))
  {
    if ns != [] {
      var ns', eps' := ns[..|ns| - 1], eps[..|eps| - 1];
      BuildIndexLastWins(ns', eps');
      var m := BuildIndex(ns, eps);
      var last := |ns| - 1;
      assert ns == ns' + [ns[last]];
      forall n | n in m
        ensures exists k ::
          (0 <= k < |ns| && ns[k] == n && m[n] == eps[k]
           && (forall j :: k < j < |ns| ==> ns[j] != n))
      {
        if n != ns[last] {
          var k :| 0 <= k < |ns'| && ns'[k] == n && BuildIndex(ns', eps')[n] == eps'[k]
            && (forall j :: k < j < |ns'| ==> ns'[j] != n);
          assert eps'[k] == eps[k];
        }
      }
    }
  }

  /** `pick` raises exactly when some episode number does not parse. */
  lemma IndexFails(eps: seq<Episode>)
    ensures Index(eps).None? <==> exists k :: 0 <= k < |eps| && PyInt(eps[k].number).None?
  {
  }

  /** Every parsed number is a key, and each key maps to the last episode
      whose number parses to it. */
  lemma IndexLastWins(eps: seq<Episode>)
    requires Index(eps).Some?
    ensures var ns := Numbers(eps).value;
      forall n :: n in Index(eps).value <==> n in ns
    ensures var ns := Numbers(eps).value;
      forall n :: n in Index(eps).value ==>
        exists k ::
          (0 <= k < |eps| && ns[k] == n && Index(eps).value[n] == eps[k]
           && (forall j :: k < j < |eps| ==> ns[j] != n))
  {
    BuildIndexLastWins(Numbers(eps).value, eps);
  }

  /** `[index[n] for n in desired_numbers if n in index]` */
  function Selected(m: map<int, Episode>, desired: seq<int>): (r: seq<Episode>)
  {
    if desired == [] then []
    else
      Selected(m, desired[..|desired| - 1])
      + (if desired[|desired| - 1] in m then [m[desired[|desired| - 1]]] else [])
  }

  /** The desired numbers `Selected` keeps, in their original order. */
  function Kept(m: map<int, Episode>, desired: seq<int>): (r: seq<int>)
    ensures forall i :: 0 <= i < |r| ==> r[i] in m
  {
    if desired == [] then []
    else
      Kept(m, desired[..|desired| - 1])
      + (if desired[|desired| - 1] in m then [desired[|desired| - 1]] else [])
  }

  /** The output lists `index[n]` for the desired numbers present in the
      index, in the order of `desired`; missing numbers are skipped. */
  lemma {:induction false} SelectedFollowsDesired(m: map<int, Episode>, desired: seq<int>)
    ensures |Selected(m, desired)| == |Kept(m, desired)| <= |desired|
    ensures forall i :: 0 <= i < |Kept(m, desired)| ==> Selected(m, desired)[i] == m[Kept(m, desired)[i]]
    ensures forall n :: n in Kept(m, desired) <==> n in desired && n in m
  {
    if desired != [] {
      var init := desired[..|desired| - 1];
      SelectedFollowsDesired(m, init);
      assert desired == init + [desired[|desired| - 1]];
    }
  }

  /** `pick_episodes_from_episode_list(available_eps, desired_numbers)` */
  method PickEpisodes(available: seq<Episode>, desired: seq<int>) returns (r: Option<seq<Episode>>)
    ensures r.None? <==> Index(available).None?
    ensures r.Some? ==> r.value == Selected(Index(available).value, desired)
  {
    var index := Index(available);
    if index.None? {
      return None;
    }
    var m := index.value;
    var result: seq<Episode> := [];
    for k := 0 to |desired|
      invariant result == Selected(m, desired[..k])
    {
      assert desired[..k + 1][..k] == desired[..k];
      if desired[k] in m {
        result := result + [m[desired[k]]];
      }
    }
    assert desired[..|desired|] == desired;
    return Some(result);
  }
}
