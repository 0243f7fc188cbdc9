/** The few Python `str` operations the bot relies on, restricted to ASCII:
    `lower`, `strip`, `find`/`index`/`in`, `split` (with and without
    `maxsplit`), `join`, `endswith`, `int(...)` and `str(n)` for naturals. */
module Text {
  import opened Common

  // ---------------------------------------------------------------- chars

  /** `str.isspace` restricted to ASCII: space, \t \n \v \f \r and the four
      information separators 0x1c..0x1f, which Python also strips. */
  predicate IsSpace(c: char)
  {
    c == ' ' || (9 <= c as int <= 13) || (28 <= c as int <= 31)
  }

  predicate IsDigit(c: char)
  {
    '0' <= c <= '9'
  }

  predicate AllDigits(s: string)
  {
    forall i :: 0 <= i < |s| ==> IsDigit(s[i])
  }

  function LowerChar(c: char): (r: char)
    ensures 'A' <= c <= 'Z' ==> r as int == c as int + 32
    ensures !('A' <= c <= 'Z') ==> r == c
  {
    if 'A' <= c <= 'Z' then (c as int + 32) as char else c
  }

  /** `str.lower()` on ASCII text. */
  function Lower(s: string): (r: string)
    ensures |r| == |s|
    ensures forall i :: 0 <= i < |s| ==> r[i] == LowerChar(s[i])
  {
    seq(|s|, i requires 0 <= i < |s| => LowerChar(s[i]))
  }

  function UpperChar(c: char): (r: char)
    ensures 'a' <= c <= 'z' ==> r as int == c as int - 32
    ensures !('a' <= c <= 'z') ==> r == c
  {
    if 'a' <= c <= 'z' then (c as int - 32) as char else c
  }

  /** `str.upper()` on ASCII text. */
  function Upper(s: string): (r: string)
    ensures |r| == |s|
    ensures forall i :: 0 <= i < |s| ==> r[i] == UpperChar(s[i])
  {
    seq(|s|, i requires 0 <= i < |s| => UpperChar(s[i]))
  }

  // ---------------------------------------------------------------- strip

  function LStrip(s: string): (r: string)
    ensures |r| <= |s| && r == s[|s| - |r|..]
    ensures r == [] || !IsSpace(r[0])
    ensures forall i :: 0 <= i < |s| - |r| ==> IsSpace(s[i])
  {
    if s != [] && IsSpace(s[0]) then LStrip(s[1..]) else s
  }

  function RStrip(s: string): (r: string)
    ensures |r| <= |s| && r == s[..|r|]
    ensures r == [] || !IsSpace(r[|r| - 1])
    ensures forall i :: |r| <= i < |s| ==> IsSpace(s[i])
  {
    if s != [] && IsSpace(s[|s| - 1]) then RStrip(s[..|s| - 1]) else s
  }

  /** `str.strip()`: drop leading and trailing whitespace. */
  function Strip(s: string): string
  {
    RStrip(LStrip(s))
  }

  /** Stripping twice is stripping once. */
  lemma StripTwice(s: string)
    ensures Strip(Strip(s)) == Strip(s)
  {
    var l := LStrip(s);
    var r := RStrip(l);
    if r != [] {
      assert r[0] == l[0];
      assert LStrip(r) == r;
      assert RStrip(r) == r;
    }
  }

  predicate NoSpace(s: string)
  {
    forall i :: 0 <= i < |s| ==> !IsSpace(s[i])
  }

  lemma StripNoSpace(s: string)
    requires NoSpace(s)
    ensures Strip(s) == s
  {
    if s != [] {
      assert !IsSpace(s[0]) && !IsSpace(s[|s| - 1]);
    }
  }

  // ---------------------------------------------------------------- search

  /** `s.find(c)` as an option: the first index holding `c`. */
  function IndexOf(s: string, c: char): (r: Option<nat>)
    ensures r.Some? ==> r.value < |s| && s[r.value] == c && c !in s[..r.value]
    ensures r.None? <==> c !in s
  {
    if s == [] then None
    else if s[0] == c then Some(0)
    else match IndexOf(s[1..], c)
      case None => None
      case Some(i) => assert s[..i + 1] == [s[0]] + s[1..][..i]; Some(i + 1)
  }

  /** The first index holding `c` is the one `IndexOf` finds. */
  lemma IndexOfFirst(s: string, c: char, i: nat)
    requires i < |s| && s[i] == c && c !in s[..i]
    ensures IndexOf(s, c) == Some(i)
    decreases i
  {
    if i > 0 {
      assert s[..i][0] == s[0];
      assert s[1..][..i - 1] == s[..i][1..];
      IndexOfFirst(s[1..], c, i - 1);
    }
  }

  /** `s.find(c, start)` as an option: the first index at or after `start`
      holding `c`; a `start` past the end finds nothing. */
  function FindFrom(s: string, c: char, start: nat): (r: Option<nat>)
    ensures r.Some? ==> start <= r.value < |s| && s[r.value] == c
    ensures r.Some? ==> forall j :: start <= j < r.value ==> s[j] != c
    ensures r.None? ==> forall j :: start <= j < |s| ==> s[j] != c
    decreases |s| - start
  {
    if start >= |s| then None
    else if s[start] == c then Some(start)
    else FindFrom(s, c, start + 1)
  }

  predicate OccursAt(s: string, pat: string, i: nat)
  {
    i + |pat| <= |s| && s[i..i + |pat|] == pat
  }

  lemma OccursShift(s: string, pat: string, j: nat)
    requires s != []
    ensures OccursAt(s, pat, j + 1) <==> OccursAt(s[1..], pat, j)
  {
    if j + 1 + |pat| <= |s| {
      assert s[j + 1..j + 1 + |pat|] == s[1..][j..j + |pat|];
    }
  }

  /** `s.find(pat)` as an option: the first index where `pat` occurs. An empty
      pattern occurs at 0, as in Python. */
  function FindSub(s: string, pat: string): (r: Option<nat>)
    ensures r.Some? ==> OccursAt(s, pat, r.value)
    ensures r.Some? ==> forall j: nat :: j < r.value ==> !OccursAt(s, pat, j)
    ensures r.None? ==> forall j: nat :: !OccursAt(s, pat, j)
    decreases |s|
  {
    if |pat| <= |s| && s[..|pat|] == pat then Some(0)
    else if s == [] then None
    else
      var rest := FindSub(s[1..], pat);
      assert forall j: nat :: OccursAt(s, pat, j + 1) <==> OccursAt(s[1..], pat, j) by {
        forall j: nat ensures OccursAt(s, pat, j + 1) <==> OccursAt(s[1..], pat, j) {
          OccursShift(s, pat, j);
        }
      }
      assert !OccursAt(s, pat, 0);
      match rest
      case None =>
        assert forall j: nat :: !OccursAt(s, pat, j) by {
          forall j: nat ensures !OccursAt(s, pat, j) {
            if j > 0 { assert !OccursAt(s[1..], pat, j - 1); }
          }
        }
        None
      case Some(i) =>
        assert forall j: nat :: j < i + 1 ==> !OccursAt(s, pat, j) by {
          forall j: nat | j < i + 1 ensures !OccursAt(s, pat, j) {
            if j > 0 { assert !OccursAt(s[1..], pat, j - 1); }
          }
        }
        Some(i + 1)
  }

  /** `pat in s`. */
  predicate Contains(s: string, pat: string)
  {
    FindSub(s, pat).Some?
  }

  /** `s.endswith(suffix)`. */
  predicate EndsWith(s: string, suffix: string)
  {
    |suffix| <= |s| && s[|s| - |suffix|..] == suffix
  }

  // ---------------------------------------------------------------- split / join

  /** `s.split(c)` for a one-character separator. */
  function Split(s: string, c: char): (r: seq<string>)
    ensures |r| >= 1
    ensures forall k :: 0 <= k < |r| ==> c !in r[k]
    decreases |s|
  {
    match IndexOf(s, c)
    case None => [s]
    case Some(i) => [s[..i]] + Split(s[i + 1..], c)
  }

  /** `s.split(c, n)`: at most `n` splits, the rest stays in the last piece. */
  function SplitMax(s: string, c: char, n: nat): (r: seq<string>)
    ensures 1 <= |r| <= n + 1
    ensures forall k :: 0 <= k < |r| - 1 ==> c !in r[k]
    ensures |r| <= n ==> c !in r[|r| - 1]
    decreases n
  {
    if n == 0 then [s]
    else match IndexOf(s, c)
      case None => [s]
      case Some(i) => [s[..i]] + SplitMax(s[i + 1..], c, n - 1)
  }

  /** `sep.join(parts)` */
  function JoinWith(parts: seq<string>, sep: string): string
  {
    if parts == [] then ""
    else if |parts| == 1 then parts[0]
    else parts[0] + sep + JoinWith(parts[1..], sep)
  }

  /** `sep.join(parts)` for a one-character separator. */
  function Join(parts: seq<string>, c: char): string
  {
    if parts == [] then ""
    else if |parts| == 1 then parts[0]
    else parts[0] + [c] + Join(parts[1..], c)
  }

  lemma {:induction false} JoinIsJoinWith(parts: seq<string>, c: char)
    ensures Join(parts, c) == JoinWith(parts, [c])
  {
    if |parts| > 1 {
      JoinIsJoinWith(parts[1..], c);
    }
  }

  lemma JoinCons(a: string, p: seq<string>, c: char)
    requires |p| >= 1
    ensures Join([a] + p, c) == a + [c] + Join(p, c)
  {
    assert ([a] + p)[1..] == p;
  }

  lemma Pivot<T>(s: seq<T>, i: nat)
    requires i < |s|
    ensures s[..i] + [s[i]] + s[i + 1..] == s
  {
    var t := s[..i] + [s[i]] + s[i + 1..];
    assert |t| == |s|;
    forall k | 0 <= k < |s| ensures t[k] == s[k] {
      if k < i {
        assert t[k] == s[..i][k];
      } else if k > i {
        assert t[k] == s[i + 1..][k - i - 1];
      }
    }
  }

  /** Splitting at the first separator. */
  lemma SplitAt(s: string, c: char, i: nat)
    requires IndexOf(s, c) == Some(i)
    ensures Split(s, c) == [s[..i]] + Split(s[i + 1..], c)
  {
  }

  /** A piece without the separator, then the separator, splits there. */
  lemma SplitCons(a: string, c: char, t: string)
    requires c !in a
    ensures Split(a + [c] + t, c) == [a] + Split(t, c)
  {
    var s := a + [c] + t;
    assert s[..|a|] == a;
    IndexOfFirst(s, c, |a|);
    assert s[|a| + 1..] == t;
  }

  lemma {:induction false} JoinSplit(s: string, c: char)
    ensures Join(Split(s, c), c) == s
    decreases |s|
  {
    var r := IndexOf(s, c);
    if r.Some? {
      var i := r.value;
      SplitAt(s, c, i);
      JoinSplit(s[i + 1..], c);
      JoinCons(s[..i], Split(s[i + 1..], c), c);
      Pivot(s, i);
    }
  }

  lemma {:induction false} SplitJoin(parts: seq<string>, c: char)
    requires |parts| >= 1
    requires forall k :: 0 <= k < |parts| ==> c !in parts[k]
    ensures Split(Join(parts, c), c) == parts
    decreases |parts|
  {
    if |parts| > 1 {
      JoinCons(parts[0], parts[1..], c);
      assert [parts[0]] + parts[1..] == parts;
      SplitCons(parts[0], c, Join(parts[1..], c));
      SplitJoin(parts[1..], c);
    }
    else {
      assert IndexOf(parts[0], c) == None;
    }
  }

  /** `s.split(sep, 1)` for a non-empty, possibly multi-character separator. */
  function SplitOnce(s: string, sep: string): (r: seq<string>)
    requires |sep| > 0
    ensures 1 <= |r| <= 2
    ensures |r| == 1 <==> !Contains(s, sep)
    ensures |r| == 1 ==> r[0] == s
    ensures |r| == 2 ==> s == r[0] + sep + r[1] && !Contains(r[0], sep)
  {
    match FindSub(s, sep)
    case None => [s]
    case Some(i) =>
      assert s == s[..i] + sep + s[i + |sep|..];
      assert forall j: nat :: OccursAt(s[..i], sep, j) ==> OccursAt(s, sep, j) by {
        forall j: nat | OccursAt(s[..i], sep, j) ensures OccursAt(s, sep, j) {
          assert s[..i][j..j + |sep|] == s[j..j + |sep|];
        }
      }
      [s[..i], s[i + |sep|..]]
  }

  lemma SplitOnceAt(s: string, sep: string, i: nat)
    requires |sep| > 0 && FindSub(s, sep) == Some(i)
    ensures SplitOnce(s, sep) == [s[..i], s[i + |sep|..]]
  {
  }

  // ---------------------------------------------------------------- numbers

  function DigitChar(d: nat): (c: char)
    requires d < 10
    ensures IsDigit(c)
  {
    ('0' as int + d) as char
  }

  function DigitValue(c: char): nat
    requires IsDigit(c)
  {
    c as int - '0' as int
  }

  /** The value of a string of decimal digits (no sign, no separators). */
  function DigitsValue(s: string): nat
    requires AllDigits(s)
  {
    if s == [] then 0 else DigitsValue(s[..|s| - 1]) * 10 + DigitValue(s[|s| - 1])
  }

  /** `str(n)` for a natural number. */
  function Decimal(n: nat): string
  {
    if n < 10 then [DigitChar(n)] else Decimal(n / 10) + [DigitChar(n % 10)]
  }

  /** `str(n)` is a non-empty string of digits whose value is `n`. */
  lemma {:induction false} DecimalValue(n: nat)
    ensures |Decimal(n)| >= 1 && AllDigits(Decimal(n)) && DigitsValue(Decimal(n)) == n
  {
    if n >= 10 {
      DecimalValue(n / 10);
      var d := Decimal(n);
      assert d[..|d| - 1] == Decimal(n / 10);
    }
  }

  /** `str(n)` for any integer. */
  function IntText(n: int): string
  {
    if n < 0 then "-" + Decimal(-n) else Decimal(n)
  }

  /** `str(x)` for an optional string: `None` prints as "None". */
  function OptionText(x: Option<string>): string
  {
    match x
    case None => "None"
    case Some(v) => v
  }

  /** `if len(txt) > limit: txt = txt[:keep] + marker`: a text over the
      limit keeps its first `keep` characters and ends with the marker,
      and the result fits the limit. */
  function Truncate(txt: string, limit: nat, keep: nat, marker: string): (r: string)
    requires keep + |marker| <= limit
    ensures |r| <= limit
    ensures |txt| <= limit ==> r == txt
    ensures |txt| > limit ==> |r| == keep + |marker| && r[..keep] == txt[..keep] && r[keep..] == marker
  {
    if |txt| > limit then txt[..keep] + marker else txt
  }

  /** `s.replace(a, b)` for single characters. */
  function ReplaceChar(s: string, a: char, b: char): (r: string)
    ensures |r| == |s|
    ensures forall i :: 0 <= i < |s| ==> r[i] == (if s[i] == a then b else s[i])
  {
    seq(|s|, i requires 0 <= i < |s| => if s[i] == a then b else s[i])
  }

  /** `os.path.join(a, b)` on POSIX for two components. */
  function PathJoin(a: string, b: string): (r: string)
    ensures |b| > 0 && b[0] == '/' ==> r == b
    ensures !(|b| > 0 && b[0] == '/') && (a == [] || a[|a| - 1] == '/') ==> r == a + b
    ensures !(|b| > 0 && b[0] == '/') && !(a == [] || a[|a| - 1] == '/') ==> r == a + "/" + b
  {
    if |b| > 0 && b[0] == '/' then b
    else if a == [] || a[|a| - 1] == '/' then a + b
    else a + "/" + b
  }

  /** `os.path.basename(p)`: the text after the last '/'. */
  function BaseName(p: string): string
  {
    if p == [] || p[|p| - 1] == '/' then [] else BaseName(p[..|p| - 1]) + [p[|p| - 1]]
  }

  /** The base name is the longest suffix without a '/'. */
  lemma {:induction false} BaseNameMeaning(p: string)
    ensures '/' !in BaseName(p)
    ensures |BaseName(p)| <= |p| && BaseName(p) == p[|p| - |BaseName(p)|..]
    ensures |BaseName(p)| < |p| ==> p[|p| - |BaseName(p)| - 1] == '/'
  {
    if p != [] && p[|p| - 1] != '/' {
      var init := p[..|p| - 1];
      BaseNameMeaning(init);
      var r := BaseName(init);
      assert init[|init| - |r|..] + [p[|p| - 1]] == p[|p| - |r| - 1..];
      assert |r| < |init| ==> p[|p| - |r| - 2] == init[|init| - |r| - 1];
    }
  }

  /** Digits with single underscores between them, as `int()` accepts. */
  predicate IsDigitGroups(b: string)
  {
    && |b| > 0 && IsDigit(b[0]) && IsDigit(b[|b| - 1])
    && (forall i :: 0 <= i < |b| ==> IsDigit(b[i]) || b[i] == '_')
    && (forall i :: 0 <= i < |b| - 1 && b[i] == '_' ==> b[i + 1] != '_')
  }

  function DropUnderscores(b: string): (r: string)
    requires forall i :: 0 <= i < |b| ==> IsDigit(b[i]) || b[i] == '_'
    ensures AllDigits(r)
    ensures AllDigits(b) ==> r == b
  {
    if b == [] then []
    else if b[0] == '_' then DropUnderscores(b[1..])
    else [b[0]] + DropUnderscores(b[1..])
  }

  /** The value of `int()`'s digit part, `None` when it is malformed. */
  function GroupsValue(body: string): (r: Option<nat>)
    ensures r.Some? <==> IsDigitGroups(body)
  {
    if IsDigitGroups(body) then Some(DigitsValue(DropUnderscores(body))) else None
  }

  /** Python's `int(s)` for a `str` argument in base 10: surrounding
      whitespace, an optional sign, then digits with single underscores
      between them. `None` stands for the `ValueError` it raises otherwise. */
  function PyInt(s: string): Option<int>
  {
    var t := Strip(s);
    if t == [] then None
    else if t[0] == '-' then
      match GroupsValue(t[1..])
      case None => None
      case Some(v) => Some(0 - v as int)
    else
      var body := if t[0] == '+' then t[1..] else t;
      match GroupsValue(body)
      case None => None
      case Some(v) => Some(v)
  }

  lemma AllDigitsGroups(s: string)
    requires |s| > 0 && AllDigits(s)
    ensures GroupsValue(s) == Some(DigitsValue(s))
  {
    assert IsDigit(s[0]) && IsDigit(s[|s| - 1]);
    assert forall i :: 0 <= i < |s| - 1 ==> s[i] != '_' by {
      forall i | 0 <= i < |s| - 1 ensures s[i] != '_' {
        assert IsDigit(s[i]);
      }
    }
  }

  lemma AllDigitsNoSpace(s: string)
    requires AllDigits(s)
    ensures NoSpace(s)
  {
    forall i | 0 <= i < |s| ensures !IsSpace(s[i]) {
      assert IsDigit(s[i]);
    }
  }

  lemma PyIntUnsigned(s: string, v: nat)
    requires |s| > 0 && Strip(s) == s && IsDigit(s[0]) && GroupsValue(s) == Some(v)
    ensures PyInt(s) == Some(v)
  {
  }

  /** A digit-only string converts to its digit value. */
  lemma PyIntDigits(s: string)
    requires |s| > 0 && AllDigits(s)
    ensures PyInt(s) == Some(DigitsValue(s))
  {
    AllDigitsNoSpace(s);
    StripNoSpace(s);
    AllDigitsGroups(s);
    PyIntUnsigned(s, DigitsValue(s));
  }

  /** `int(str(n)) == n`. */
  lemma PyIntDecimal(n: nat)
    ensures PyInt(Decimal(n)) == Some(n)
  {
    DecimalValue(n);
    PyIntDigits(Decimal(n));
  }
}
