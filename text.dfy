/** String operations the scripts take from Python's `str`, restricted to what the model needs. */
module Text {
  import opened Common

  predicate IsAsciiLower(c: char) { 'a' <= c <= 'z' }

  predicate IsAsciiDigit(c: char) { '0' <= c <= '9' }

  predicate AllDigits(s: string) { forall i :: 0 <= i < |s| ==> IsAsciiDigit(s[i]) }

  /** The texts `int()` reads, once stripped: one or more ASCII digits, after an optional sign. */
  predicate IsIntText(t: string) {
    (t != [] && AllDigits(t)) || (|t| >= 2 && (t[0] == '-' || t[0] == '+') && AllDigits(t[1..]))
  }

  /**
   * Python's `str.isspace()`, the set `str.strip()` with no argument removes: the ASCII
   * controls 9–13 and 28–31, the space, and the Unicode separators (NEL, no-break space,
   * the ogham, en/em/thin spaces, line and paragraph separators, narrow no-break space,
   * medium mathematical space and the ideographic space U+3000).
   */
  predicate IsSpace(c: char) {
    '\t' <= c <= '\r' || '\U{001C}' <= c <= ' ' || c == '\U{0085}' || c == '\U{00A0}' || c == '\U{1680}'
    || '\U{2000}' <= c <= '\U{200A}' || c == '\U{2028}' || c == '\U{2029}' || c == '\U{202F}'
    || c == '\U{205F}' || c == '\U{3000}'
  }

  function UpperChar(c: char): (u: char)
    ensures !IsAsciiLower(u)
    ensures !IsAsciiLower(c) ==> u == c
  {
    if IsAsciiLower(c) then (c as int - 32) as char else c
  }

  /** `str.upper()` on ASCII letters; every other character is kept. */
  function Upper(s: string): (r: string)
    ensures |r| == |s|
    ensures forall i :: 0 <= i < |s| ==> r[i] == UpperChar(s[i])
  {
    if s == [] then [] else [UpperChar(s[0])] + Upper(s[1..])
  }

  lemma UpperIdempotent(s: string)
    ensures Upper(Upper(s)) == Upper(s)
  {
  }

  /** Upper-casing keeps a text that has no lower-case letter. */
  lemma UpperKeepsNonLower(s: string)
    requires forall i :: 0 <= i < |s| ==> !IsAsciiLower(s[i])
    ensures Upper(s) == s
  {
    assert forall i :: 0 <= i < |s| ==> Upper(s)[i] == s[i];
  }

  lemma {:induction false} UpperAppend(a: string, b: string)
    ensures Upper(a + b) == Upper(a) + Upper(b)
  {
    if a == [] {
      assert a + b == b;
    } else {
      assert (a + b)[0] == a[0] && (a + b)[1..] == a[1..] + b;
      UpperAppend(a[1..], b);
      assert Upper(a + b) == [UpperChar(a[0])] + (Upper(a[1..]) + Upper(b));
    }
  }

  lemma UpperKeepsDigits(s: string)
    requires forall i :: 0 <= i < |s| ==> IsAsciiDigit(s[i])
    ensures Upper(s) == s
  {
  }

  /** `s.lstrip(chars)`: drop every leading character that belongs to `chars`. */
  function LStrip(s: string, chars: set<char>): (r: string)
    ensures |r| <= |s| && r == s[|s| - |r|..]
    ensures forall i :: 0 <= i < |s| - |r| ==> s[i] in chars
    ensures r == [] || r[0] !in chars
  {
    if s != [] && s[0] in chars then LStrip(s[1..], chars) else s
  }

  lemma LStripStops(s: string, chars: set<char>)
    requires s == [] || s[0] !in chars
    ensures LStrip(s, chars) == s
  {
  }

  lemma LStripStep(s: string, chars: set<char>)
    requires s != [] && s[0] in chars
    ensures LStrip(s, chars) == LStrip(s[1..], chars)
  {
  }

  /** A leading run of stripped characters does not change what `lstrip` leaves. */
  lemma {:induction false} LStripSkips(junk: string, s: string, chars: set<char>)
    requires forall i :: 0 <= i < |junk| ==> junk[i] in chars
    ensures LStrip(junk + s, chars) == LStrip(s, chars)
  {
    if junk == [] {
      assert junk + s == s;
    } else {
      var rest := junk[1..] + s;
      assert junk + s == [junk[0]] + rest;
      LStripStep(junk + s, chars);
      assert (junk + s)[1..] == rest;
      LStripSkips(junk[1..], s, chars);
    }
  }

  lemma {:induction false} LStripIdempotent(s: string, chars: set<char>)
    ensures LStrip(LStrip(s, chars), chars) == LStrip(s, chars)
  {
  }

  predicate StartsWith(s: string, prefix: string) {
    |prefix| <= |s| && s[..|prefix|] == prefix
  }

  /** `needle in hay`: some window of `hay` equals `needle` (the empty needle occurs everywhere). */
  ghost predicate OccursIn(needle: string, hay: string) {
    exists i :: MatchesAt(needle, hay, i)
  }

  /** `needle` is the window of `hay` that starts at `i`. */
  predicate MatchesAt(needle: string, hay: string, i: int) {
    0 <= i <= |hay| - |needle| && hay[i..i + |needle|] == needle
  }

  /** A direct scan for `needle` in `hay`, starting at position `from`. */
  function OccursFrom(needle: string, hay: string, from: nat): bool
    requires from <= |hay|
    decreases |hay| - from
  {
    if from + |needle| > |hay| then false
    else if hay[from..from + |needle|] == needle then true
    else OccursFrom(needle, hay, from + 1)
  }

  /** The scan answers exactly when some window from `from` on equals `needle`. */
  lemma {:induction false} OccursFromDecides(needle: string, hay: string, from: nat)
    requires from <= |hay|
    ensures OccursFrom(needle, hay, from) <==> exists i :: from <= i && MatchesAt(needle, hay, i)
    decreases |hay| - from
  {
    if from + |needle| > |hay| {
    } else if hay[from..from + |needle|] == needle {
      assert MatchesAt(needle, hay, from);
    } else {
      OccursFromDecides(needle, hay, from + 1);
      assert !MatchesAt(needle, hay, from);
    }
  }

  /** `needle` occurs in `hay` when both are upper-cased, i.e. `str.contains(..., case=False)`. */
  function ContainsIgnoreCase(hay: string, needle: string): (b: bool)
    ensures needle == [] ==> b
  {
    OccursFrom(Upper(needle), Upper(hay), 0)
  }

  /** Case-insensitive containment is containment of the upper-cased needle in the upper-cased text. */
  lemma ContainsIgnoreCaseOccurs(hay: string, needle: string)
    ensures ContainsIgnoreCase(hay, needle) <==> OccursIn(Upper(needle), Upper(hay))
  {
    OccursFromDecides(Upper(needle), Upper(hay), 0);
  }

  /** Where the text after the last '.' starts: just past that '.', or 0 when there is none. */
  function DotEnd(s: string): (k: nat)
    ensures k <= |s| && '.' !in s[k..]
    ensures k > 0 ==> s[k - 1] == '.'
  {
    if s == [] then 0
    else if s[|s| - 1] == '.' then |s|
    else
      var init := s[..|s| - 1];
      var k := DotEnd(init);
      assert s[k..] == init[k..] + [s[|s| - 1]];
      k
  }

  /** `s.split('.')[-1]`: the text after the last '.', or `s` itself when it has none. */
  function AfterLastDot(s: string): (r: string)
    ensures |r| <= |s| && r == s[|s| - |r|..]
    ensures '.' !in r
    ensures '.' !in s ==> r == s
    ensures r != s ==> s[|s| - |r| - 1] == '.'
  {
    var k := DotEnd(s);
    assert k > 0 ==> s[k - 1] in s;
    s[k..]
  }

  /** Every character of `s` is whitespace. */
  predicate AllSpace(s: string) {
    forall k :: 0 <= k < |s| ==> IsSpace(s[k])
  }

  /** How many whitespace characters `s` starts with. */
  function LeadingSpace(s: string): (n: nat)
    ensures n <= |s| && (n < |s| ==> !IsSpace(s[n]))
  {
    if s != [] && IsSpace(s[0]) then
      var n := 1 + LeadingSpace(s[1..]);
      assert n < |s| ==> s[n] == s[1..][n - 1];
      n
    else 0
  }

  lemma {:induction false} LeadingSpaceIsSpace(s: string)
    ensures AllSpace(s[..LeadingSpace(s)])
  {
    if s != [] && IsSpace(s[0]) {
      LeadingSpaceIsSpace(s[1..]);
      forall k | 0 <= k < LeadingSpace(s) ensures IsSpace(s[k]) {
        if k > 0 {
          assert s[k] == s[1..][..LeadingSpace(s[1..])][k - 1];
        }
      }
    }
  }

  /** How many whitespace characters `s` ends with. */
  function TrailingSpace(s: string): (n: nat)
    ensures n <= |s| && (n < |s| ==> !IsSpace(s[|s| - 1 - n]))
  {
    if s != [] && IsSpace(s[|s| - 1]) then
      var n := 1 + TrailingSpace(s[..|s| - 1]);
      assert n < |s| ==> s[|s| - 1 - n] == s[..|s| - 1][|s| - 1 - n];
      n
    else 0
  }

  lemma {:induction false} TrailingSpaceIsSpace(s: string)
    ensures AllSpace(s[|s| - TrailingSpace(s)..])
  {
    if s != [] && IsSpace(s[|s| - 1]) {
      var init := s[..|s| - 1];
      TrailingSpaceIsSpace(init);
      var m := |s| - TrailingSpace(s);
      forall k | m <= k < |s| ensures IsSpace(s[k]) {
        if k < |s| - 1 {
          assert s[k] == init[m..][k - m];
        }
      }
    }
  }

  /** `s.lstrip()`. */
  function StripLeft(s: string): (r: string)
    ensures |r| <= |s| && (r == [] || !IsSpace(r[0]))
  {
    s[LeadingSpace(s)..]
  }

  /** What `lstrip` drops is whitespace, and what it keeps is the rest of the text. */
  lemma StripLeftDropsSpace(s: string)
    ensures var n := |s| - |StripLeft(s)|; StripLeft(s) == s[n..] && AllSpace(s[..n])
  {
    LeadingSpaceIsSpace(s);
  }

  /** `s.rstrip()`. */
  function StripRight(s: string): (r: string)
    ensures |r| <= |s| && (r == [] || !IsSpace(r[|r| - 1]))
  {
    s[..|s| - TrailingSpace(s)]
  }

  /** What `rstrip` drops is whitespace, and what it keeps is the start of the text. */
  lemma StripRightDropsSpace(s: string)
    ensures var n := |StripRight(s)|; StripRight(s) == s[..n] && AllSpace(s[n..])
  {
    TrailingSpaceIsSpace(s);
  }

  /** `s.strip()`: drop leading and trailing whitespace. */
  function Strip(s: string): (r: string)
    ensures |r| <= |s|
    ensures r == [] || (!IsSpace(r[0]) && !IsSpace(r[|r| - 1]))
  {
    StripRight(StripLeft(s))
  }

  /** `r` is the window of `s` that starts at `i`, with nothing but whitespace on either side of it. */
  predicate IsTrimmedWindow(s: string, i: nat, r: string) {
    i + |r| <= |s| && r == s[i..i + |r|] && AllSpace(s[..i]) && AllSpace(s[i + |r|..])
  }

  /** What `strip` keeps is a window of the text with nothing but whitespace on either side of it. */
  lemma {:induction false} StripTrims(s: string)
    ensures IsTrimmedWindow(s, LeadingSpace(s), Strip(s))
  {
    var i, t := LeadingSpace(s), StripLeft(s);
    var r := StripRight(t);
    LeadingSpaceIsSpace(s);
    TrailingSpaceIsSpace(t);
    assert r == s[i..i + |r|];
    assert s[i + |r|..] == t[|r|..];
  }

  /** Text that neither starts nor ends with whitespace is left as it is. */
  lemma {:induction false} StripKeepsTrimmed(s: string)
    requires s == [] || (!IsSpace(s[0]) && !IsSpace(s[|s| - 1]))
    ensures Strip(s) == s
  {
    assert StripLeft(s) == s[0..] == s;
  }

  /** Every character of `s` that is not in `drop`, in order (`re.sub('[...]', '', s)`). */
  function RemoveChars(s: string, drop: set<char>): (r: string)
    ensures |r| <= |s|
    ensures forall i :: 0 <= i < |r| ==> r[i] !in drop && r[i] in s
    ensures (forall i :: 0 <= i < |s| ==> s[i] !in drop) ==> r == s
  {
    if s == [] then []
    else if s[0] in drop then RemoveChars(s[1..], drop)
    else [s[0]] + RemoveChars(s[1..], drop)
  }

  /** Removal works piece by piece: a kept character stays, a dropped one goes. */
  lemma RemoveCharsOne(c: char, drop: set<char>)
    ensures RemoveChars([c], drop) == if c in drop then [] else [c]
  {
  }

  /** Removal distributes over concatenation, so it keeps the other characters in their order. */
  lemma {:induction false} RemoveCharsAppend(a: string, b: string, drop: set<char>)
    ensures RemoveChars(a + b, drop) == RemoveChars(a, drop) + RemoveChars(b, drop)
  {
    if a == [] {
      assert a + b == b;
    } else {
      assert (a + b)[0] == a[0] && (a + b)[1..] == a[1..] + b;
      RemoveCharsAppend(a[1..], b, drop);
    }
  }

  /** Removing one set and then another removes their union. */
  lemma {:induction false} RemoveCharsTwice(s: string, d1: set<char>, d2: set<char>)
    ensures RemoveChars(RemoveChars(s, d1), d2) == RemoveChars(s, d1 + d2)
  {
    if s != [] {
      RemoveCharsTwice(s[1..], d1, d2);
      if s[0] !in d1 {
        assert RemoveChars(s, d1) == [s[0]] + RemoveChars(s[1..], d1);
        assert RemoveChars(s, d1)[1..] == RemoveChars(s[1..], d1);
      }
    }
  }

  /** The value of a non-empty run of ASCII digits, most significant first. */
  function DigitsValue(s: string): (n: nat)
    requires forall i :: 0 <= i < |s| ==> IsAsciiDigit(s[i])
  {
    if s == [] then 0
    else
      assert IsAsciiDigit(s[|s| - 1]);
      10 * DigitsValue(s[..|s| - 1]) + (s[|s| - 1] as int - '0' as int)
  }

  /**
   * `int(s)` for a text: optional surrounding whitespace, an optional sign, then one or more
   * ASCII digits; anything else raises `ValueError` (`None`).
   */
  function ParseInt(s: string): (r: Option<int>)
    ensures Strip(s) == [] || Strip(s) == "-" || Strip(s) == "+" ==> r.None?
    ensures r.Some? <==> IsIntText(Strip(s))
    ensures r.Some? && r.value < 0 ==> Strip(s)[0] == '-'
  {
    SignedDigits(Strip(s))
  }

  /** An optional sign followed by one or more ASCII digits, with nothing around them. */
  function SignedDigits(t: string): Option<int> {
    if t != [] && (t[0] == '-' || t[0] == '+') then
      var body := t[1..];
      if body != [] && AllDigits(body) then Some(if t[0] == '-' then -(DigitsValue(body) as int) else DigitsValue(body))
      else None
    else if t != [] && AllDigits(t) then Some(DigitsValue(t))
    else None
  }

  function DigitChar(d: nat): (c: char)
    requires d < 10
    ensures IsAsciiDigit(c) && c as int - '0' as int == d
  {
    ('0' as int + d) as char
  }

  /** `str(n)` for a natural number. */
  function ShowNat(n: nat): (s: string)
    ensures s != [] && AllDigits(s)
  {
    if n < 10 then [DigitChar(n)] else ShowNat(n / 10) + [DigitChar(n % 10)]
  }

  /** Reading back the decimal text of a number gives the number. */
  lemma {:induction false} DigitsValueShow(n: nat)
    ensures DigitsValue(ShowNat(n)) == n
  {
    var s := ShowNat(n);
    if n >= 10 {
      DigitsValueShow(n / 10);
      assert s[..|s| - 1] == ShowNat(n / 10);
    }
  }

  /** A run of digits parses to its value. */
  lemma {:induction false} ParseIntDigits(s: string)
    requires s != [] && AllDigits(s)
    ensures ParseInt(s) == Some(DigitsValue(s))
  {
    assert IsAsciiDigit(s[0]) && IsAsciiDigit(s[|s| - 1]);
    StripKeepsTrimmed(s);
  }

  /** A minus sign followed by a run of digits parses to the negated value. */
  lemma {:induction false} ParseIntNegDigits(s: string, v: nat)
    requires s != [] && AllDigits(s) && DigitsValue(s) == v
    ensures ParseInt("-" + s) == Some(-(v as int))
  {
    var m := "-" + s;
    assert m[0] == '-' && m[1..] == s;
    assert SignedDigits(m) == Some(-(v as int));
    assert Strip(m) == m by {
      assert m[|m| - 1] == s[|s| - 1] && IsAsciiDigit(s[|s| - 1]);
      StripKeepsTrimmed(m);
    }
  }

  /** `int(str(n)) == n` and `int(str(-n)) == -n`: integer text parses back to its value. */
  lemma {:induction false} ParseIntShow(n: nat)
    ensures ParseInt(ShowNat(n)) == Some(n)
    ensures ParseInt("-" + ShowNat(n)) == Some(-(n as int))
  {
    DigitsValueShow(n);
    ParseIntDigits(ShowNat(n));
    ParseIntNegDigits(ShowNat(n), n);
  }

  /**
   * A digit run broken by another ASCII character, such as "4.5" or "12a", is not an integer
   * text: `int()` raises `ValueError`. The underscore, which Python allows between digits,
   * is excluded.
   */
  lemma {:induction false} ParseIntRejectsNonDigit(a: string, c: char, b: string)
    requires a != [] && AllDigits(a) && AllDigits(b) && !IsAsciiDigit(c)
    requires c != '_' && c as int < 128
    requires b != [] || !IsSpace(c)
    ensures ParseInt(a + [c] + b).None?
  {
    var m := a + [c] + b;
    assert m[0] == a[0] && IsAsciiDigit(a[0]);
    assert m[|a|] == c;
    assert Strip(m) == m by {
      assert m[|m| - 1] == if b == [] then c else b[|b| - 1];
      StripKeepsTrimmed(m);
    }
  }
}
