/** The Python string operations the source relies on, on `seq<char>`:
    `str.strip`, `str.lower` (ASCII letters only), `startswith`/`endswith`,
    substring tests, `split`/`join` on a one-character separator, `int()` on a
    string and `str()` of an integer. */
module Text {
  import opened Wrappers

  /** `c.isspace()`: the characters Python's `str.strip()` removes. */
  predicate IsSpace(c: char) {
    || c == ' ' || c == '\t' || c == '\n' || c == '\r'
    || c == '\U{000B}' || c == '\U{000C}'
    || ('\U{001C}' <= c <= '\U{001F}')
    || c == '\U{0085}' || c == '\U{00A0}' || c == '\U{1680}'
    || ('\U{2000}' <= c <= '\U{200A}')
    || c == '\U{2028}' || c == '\U{2029}' || c == '\U{202F}' || c == '\U{205F}' || c == '\U{3000}'
  }

  /** The ASCII information separators U+001C to U+001F. `isspace()` holds for them,
      so `str.strip()` removes them, but `int()` does not skip them. */
  predicate IsInfoSeparator(c: char) {
    '\U{001C}' <= c <= '\U{001F}'
  }

  predicate HasInfoSeparator(s: string) {
    exists i :: 0 <= i < |s| && IsInfoSeparator(s[i])
  }

  /** Python's `not s.strip()`: empty or whitespace only. */
  predicate IsBlank(s: string) {
    forall i :: 0 <= i < |s| ==> IsSpace(s[i])
  }

  function LeadingSpace(s: string): (n: nat)
    ensures n <= |s|
    ensures IsBlank(s[..n])
    ensures n < |s| ==> !IsSpace(s[n])
  {
    if s == [] || !IsSpace(s[0]) then 0 else 1 + LeadingSpace(s[1..])
  }

  function TrailingSpace(s: string): (n: nat)
    ensures n <= |s|
    ensures IsBlank(s[|s| - n..])
    ensures n < |s| ==> !IsSpace(s[|s| - n - 1])
  {
    if s == [] || !IsSpace(s[|s| - 1]) then 0 else 1 + TrailingSpace(s[..|s| - 1])
  }

  /** `s.strip()`: removes leading and trailing whitespace. */
  function Strip(s: string): (r: string)
    ensures |r| <= |s|
    ensures r == [] <==> IsBlank(s)
    ensures r != [] ==> !IsSpace(r[0]) && !IsSpace(r[|r| - 1])
    ensures var lead := LeadingSpace(s);
      && lead + |r| <= |s| && r == s[lead..lead + |r|]
      && IsBlank(s[..lead]) && IsBlank(s[lead + |r|..])
  {
    var lead := LeadingSpace(s);
    var t := s[lead..];
    var trail := TrailingSpace(t);
    StripBlank(s, lead, trail);
    assert s[lead + |t| - trail..] == t[|t| - trail..];
    t[..|t| - trail]
  }

  /** Only a blank text strips to nothing. */
  lemma StripBlank(s: string, lead: nat, trail: nat)
    requires lead == LeadingSpace(s) && trail == TrailingSpace(s[lead..])
    ensures trail == |s| - lead <==> IsBlank(s)
  {
    BlankHasNoLead(s, lead);
    if trail == |s| - lead {
      BlankParts(s, lead, trail);
    }
  }

  lemma BlankHasNoLead(s: string, lead: nat)
    requires lead == LeadingSpace(s)
    ensures IsBlank(s) ==> lead == |s|
  {
  }

  lemma BlankParts(s: string, lead: nat, trail: nat)
    requires lead == LeadingSpace(s) && trail == TrailingSpace(s[lead..])
    requires trail == |s| - lead
    ensures IsBlank(s)
  {
    var t := s[lead..];
    assert t[|t| - trail..] == t;
    assert lead == |s|;
    assert s[..lead] == s;
  }

  /** A string without surrounding whitespace is its own strip. */
  lemma {:induction false} StripOfTrimmed(s: string)
    requires s != [] ==> !IsSpace(s[0]) && !IsSpace(s[|s| - 1])
    ensures Strip(s) == s
  {
  }

  /** Stripping twice is stripping once. */
  lemma StripIdempotent(s: string)
    ensures Strip(Strip(s)) == Strip(s)
  {
    StripOfTrimmed(Strip(s));
  }

  /** Stripping removes only characters from the ends. */
  lemma StripKeepsOut(s: string, c: char)
    requires c !in s
    ensures c !in Strip(s)
  {
    var lead := LeadingSpace(s);
    var t := s[lead..];
    assert forall i :: 0 <= i < |t| ==> t[i] == s[lead + i];
  }

  /** Stripping never removes a character that is not whitespace. */
  lemma StripKeepsIn(s: string, c: char)
    requires !IsSpace(c)
    ensures c in Strip(s) <==> c in s
  {
    if c !in s {
      StripKeepsOut(s, c);
    } else {
      var i :| 0 <= i < |s| && s[i] == c;
      StripKeepsAt(s, i);
    }
  }

  /** A character that is not whitespace survives stripping, shifted left past the
      leading whitespace. */
  lemma StripKeepsAt(s: string, i: nat)
    requires i < |s| && !IsSpace(s[i])
    ensures s[i] in Strip(s)
  {
    var lead := LeadingSpace(s);
    var t := s[lead..];
    LeadingSpaceBefore(s, i);
    assert t[i - lead] == s[i];
    TrailingSpaceAfter(t, i - lead);
    assert Strip(s)[i - lead] == s[i];
  }

  lemma LeadingSpaceBefore(s: string, i: nat)
    requires i < |s| && !IsSpace(s[i])
    ensures LeadingSpace(s) <= i
  {
    var lead := LeadingSpace(s);
    assert forall j :: 0 <= j < lead ==> s[..lead][j] == s[j];
  }

  lemma TrailingSpaceAfter(t: string, i: nat)
    requires i < |t| && !IsSpace(t[i])
    ensures i < |t| - TrailingSpace(t)
  {
    var n := |t| - TrailingSpace(t);
    assert forall j :: n <= j < |t| ==> t[n..][j - n] == t[j];
  }

  /** `c.lower()` on ASCII letters; every other character is left unchanged. */
  function LowerChar(c: char): char {
    if 'A' <= c <= 'Z' then (c as int + 32) as char else c
  }

  /** `s.lower()` (ASCII case mapping only). */
  function Lower(s: string): (r: string)
    ensures |r| == |s|
    ensures forall i :: 0 <= i < |s| ==> r[i] == LowerChar(s[i])
  {
    seq(|s|, i requires 0 <= i < |s| => LowerChar(s[i]))
  }

  predicate StartsWith(s: string, prefix: string) {
    |prefix| <= |s| && s[..|prefix|] == prefix
  }

  predicate EndsWith(s: string, suffix: string) {
    |suffix| <= |s| && s[|s| - |suffix|..] == suffix
  }

  /** `sub in s`. */
  predicate Contains(s: string, sub: string)
    decreases |s|
  {
    StartsWith(s, sub) || (s != [] && Contains(s[1..], sub))
  }

  /** Every text containing `a + b` also contains `b`. */
  lemma {:induction false} ContainsSuffix(s: string, a: string, b: string)
    requires Contains(s, a + b)
    ensures Contains(s, b)
    decreases |s|
  {
    if StartsWith(s, a + b) {
      var i := |a|;
      ContainsAt(s, i, b);
    } else {
      ContainsSuffix(s[1..], a, b);
    }
  }

  /** `b` occurring at index `i` means `b in s`. */
  lemma {:induction false} ContainsAt(s: string, i: nat, b: string)
    requires i + |b| <= |s| && s[i..i + |b|] == b
    ensures Contains(s, b)
    decreases i
  {
    if i > 0 {
      assert s[1..][i - 1..i - 1 + |b|] == s[i..i + |b|];
      ContainsAt(s[1..], i - 1, b);
    }
  }

  /** Index of the first occurrence of `c` in `s`. */
  function Find(s: string, c: char): (r: Option<nat>)
    ensures r.None? <==> c !in s
    ensures r.Some? ==> r.value < |s| && s[r.value] == c && c !in s[..r.value]
  {
    if s == [] then None
    else if s[0] == c then Some(0)
    else
      match Find(s[1..], c)
      case None => None
      case Some(i) => assert s[..i + 1] == [s[0]] + s[1..][..i]; Some(i + 1)
  }

  /** `s.split(c)` for a one-character separator: the pieces between occurrences. */
  function Split(s: string, c: char): (parts: seq<string>)
    ensures |parts| == multiset(s)[c] + 1
    ensures forall i :: 0 <= i < |parts| ==> c !in parts[i]
    decreases |s|
  {
    match Find(s, c)
    case None => [s]
    case Some(i) =>
      assert s == s[..i] + [c] + s[i + 1..];
      assert multiset(s)[c] == multiset(s[..i])[c] + 1 + multiset(s[i + 1..])[c];
      assert multiset(s[..i])[c] == 0;
      [s[..i]] + Split(s[i + 1..], c)
  }

  /** `sep.join(parts)`. */
  function Join(parts: seq<string>, sep: string): string
    decreases |parts|
  {
    if parts == [] then ""
    else if |parts| == 1 then parts[0]
    else parts[0] + sep + Join(parts[1..], sep)
  }

  /** Splitting on `c` and joining with `c` gives the text back. */
  lemma {:induction false} JoinSplit(s: string, c: char)
    ensures Join(Split(s, c), [c]) == s
    decreases |s|
  {
    match Find(s, c)
    case None =>
    case Some(i) =>
      JoinSplit(s[i + 1..], c);
      assert s == s[..i] + [c] + s[i + 1..];
  }

  /** `s.split(c, 1)` when `c in s`: the text before and after the first `c`. */
  function SplitFirst(s: string, c: char): (r: Option<(string, string)>)
    ensures r.None? <==> c !in s
    ensures r.Some? ==> s == r.value.0 + [c] + r.value.1 && c !in r.value.0
  {
    match Find(s, c)
    case None => None
    case Some(i) =>
      assert s == s[..i] + [c] + s[i + 1..];
      Some((s[..i], s[i + 1..]))
  }

  /** The first occurrence of `c` in `a + [c] + b` is the one after `a` when `a` has none. */
  lemma FindAt(a: string, b: string, c: char)
    requires c !in a
    ensures Find(a + [c] + b, c) == Some(|a|)
  {
    var s := a + [c] + b;
    assert s[|a|] == c;
    assert forall j :: 0 <= j < |a| ==> s[j] == a[j];
  }

  /** Splitting at a separator not in the first piece peels that piece off. */
  lemma SplitAt(a: string, b: string, c: char)
    requires c !in a
    ensures Split(a + [c] + b, c) == [a] + Split(b, c)
  {
    FindAt(a, b, c);
    var s := a + [c] + b;
    assert s[..|a|] == a && s[|a| + 1..] == b;
  }

  /** A text without the separator splits into itself alone. */
  lemma SplitNone(s: string, c: char)
    requires c !in s
    ensures Split(s, c) == [s]
  {
  }

  /** Joining pieces that do not contain the separator and splitting again gives
      the pieces back. */
  lemma {:induction false} SplitJoin(parts: seq<string>, c: char)
    requires parts != []
    requires forall i :: 0 <= i < |parts| ==> c !in parts[i]
    ensures Split(Join(parts, [c]), c) == parts
    decreases |parts|
  {
    if |parts| == 1 {
      SplitNone(parts[0], c);
    } else {
      SplitJoin(parts[1..], c);
      SplitAt(parts[0], Join(parts[1..], [c]), c);
      assert parts == [parts[0]] + parts[1..];
    }
  }

  /** `s.split(c, 1)` recovers the two pieces around the separator. */
  lemma SplitFirstAt(a: string, b: string, c: char)
    requires c !in a
    ensures SplitFirst(a + [c] + b, c) == Some((a, b))
  {
    FindAt(a, b, c);
    var s := a + [c] + b;
    assert s[..|a|] == a && s[|a| + 1..] == b;
  }

  predicate IsDigit(c: char) {
    '0' <= c <= '9'
  }

  function DigitChar(d: nat): (c: char)
    requires d < 10
    ensures IsDigit(c)
  {
    ('0' as int + d) as char
  }

  function DigitValue(c: char): nat
    requires IsDigit(c)
  {
    c as int - '0' as int
  }

  /** `str(n)` for a natural number: decimal digits, no leading zero. */
  function NatToString(n: nat): (s: string)
    ensures |s| >= 1
    ensures forall i :: 0 <= i < |s| ==> IsDigit(s[i])
    ensures |s| > 1 ==> s[0] != '0'
  {
    if n < 10 then [DigitChar(n)] else NatToString(n / 10) + [DigitChar(n % 10)]
  }

  /** `str(i)` for an integer. */
  function IntToString(i: int): (s: string)
    ensures |s| >= 1
    ensures s[0] == '-' <==> i < 0
  {
    if i < 0 then "-" + NatToString(-i) else NatToString(i)
  }

  /** A decimal rendering holds only digits and a leading minus sign. */
  lemma IntToStringChars(i: int, c: char)
    requires c != '-' && !IsDigit(c)
    ensures c !in IntToString(i)
  {
    var digits := NatToString(if i < 0 then -i else i);
    assert forall j :: 0 <= j < |digits| ==> digits[j] != c;
  }

  /** The value of a run of digits in which `_` separators are skipped. */
  function GroupedValue(s: string): nat
    requires forall i :: 0 <= i < |s| ==> IsDigit(s[i]) || s[i] == '_'
  {
    if s == [] then 0
    else if s[|s| - 1] == '_' then GroupedValue(s[..|s| - 1])
    else GroupedValue(s[..|s| - 1]) * 10 + DigitValue(s[|s| - 1])
  }

  /** The digit part Python's `int()` accepts: digits, single `_` only between digits. */
  predicate WellGrouped(s: string) {
    && s != []
    && IsDigit(s[0]) && IsDigit(s[|s| - 1])
    && (forall i :: 0 <= i < |s| ==> IsDigit(s[i]) || s[i] == '_')
    && (forall i :: 0 <= i < |s| - 1 ==> s[i] == '_' ==> s[i + 1] != '_')
  }

  /** `sys.int_info.default_max_str_digits`: `int()` of a text with more digits than
      this raises `ValueError`. */
  const MaxStrDigits: nat := 4300

  /** The number of digits in a text; `_` separators are not counted. */
  function DigitCount(s: string): (n: nat)
    ensures n <= |s|
  {
    if s == [] then 0 else DigitCount(s[..|s| - 1]) + (if IsDigit(s[|s| - 1]) then 1 else 0)
  }

  /** `str(i)` stays within the digit limit. */
  predicate FitsStrDigits(i: int) {
    |NatToString(if i < 0 then -i else i)| <= MaxStrDigits
  }

  /** `int(s)` on a string: surrounding whitespace, an optional sign, then a
      well-grouped run of at most `MaxStrDigits` ASCII digits; anything else is a
      `ValueError` (None).  `int()` skips all whitespace except the information
      separators, so a separator that `Strip` would remove stays in front of or
      behind the number and rejects the text, just as one inside it does. */
  function ParseInt(s: string): (r: Option<int>)
    ensures r.Some? ==> !IsBlank(s)
    ensures r.Some? <==>
      && !IsBlank(s) && !HasInfoSeparator(s)
      && WellGrouped(Unsigned(Strip(s))) && DigitCount(Unsigned(Strip(s))) <= MaxStrDigits
    ensures r.Some? ==>
      var magnitude: int := GroupedValue(Unsigned(Strip(s)));
      r.value == if Strip(s)[0] == '-' then -magnitude else magnitude
    ensures r.Some? ==> FitsStrDigits(r.value)
  {
    var t := Strip(s);
    if t == [] || HasInfoSeparator(s) then None
    else
      var body := Unsigned(t);
      if !WellGrouped(body) || DigitCount(body) > MaxStrDigits then None
      else
        var magnitude: int := GroupedValue(body);
        GroupedValueDigits(body);
        Some(if t[0] == '-' then -magnitude else magnitude)
  }

  /** A run of digits and separators has a value printed with no more digits than
      the run holds. */
  lemma {:induction false} GroupedValueDigits(s: string)
    requires forall i :: 0 <= i < |s| ==> IsDigit(s[i]) || s[i] == '_'
    ensures DigitCount(s) == 0 ==> GroupedValue(s) == 0
    ensures |NatToString(GroupedValue(s))| <= if DigitCount(s) == 0 then 1 else DigitCount(s)
  {
    if s != [] {
      var p := s[..|s| - 1];
      assert forall i :: 0 <= i < |p| ==> p[i] == s[i];
      GroupedValueDigits(p);
      if IsDigit(s[|s| - 1]) {
        var v := GroupedValue(p);
        var d := DigitValue(s[|s| - 1]);
        if v > 0 {
          assert (v * 10 + d) / 10 == v && (v * 10 + d) % 10 == d;
          assert NatToString(v * 10 + d) == NatToString(v) + [DigitChar(d)];
        }
      }
    }
  }

  /** In a run of digits every character counts. */
  lemma {:induction false} DigitCountOfDigits(s: string)
    requires forall i :: 0 <= i < |s| ==> IsDigit(s[i])
    ensures DigitCount(s) == |s|
  {
    if s != [] {
      var p := s[..|s| - 1];
      assert forall i :: 0 <= i < |p| ==> p[i] == s[i];
      DigitCountOfDigits(p);
    }
  }

  /** A text without its leading `+` or `-`, if it has one. */
  function Unsigned(t: string): (r: string)
    ensures |r| <= |t|
  {
    if t != [] && (t[0] == '-' || t[0] == '+') then t[1..] else t
  }

  lemma {:induction false} ValueOfNatToString(n: nat)
    ensures GroupedValue(NatToString(n)) == n
  {
    if n >= 10 {
      var s := NatToString(n);
      assert s[..|s| - 1] == NatToString(n / 10);
      ValueOfNatToString(n / 10);
    }
  }

  /** `int(str(i)) == i`: the decimal rendering parses back to the same integer
      whenever it is within the digit limit, and is rejected otherwise. */
  lemma ParseIntToString(i: int)
    ensures ParseInt(IntToString(i)) == if FitsStrDigits(i) then Some(i) else None
  {
    var n := if i < 0 then -i else i;
    RenderingParts(i);
    ValueOfNatToString(n);
    DigitCountOfDigits(NatToString(n));
  }

  /** `str(i)` is its own strip, holds no information separator, and is the digits
      of `abs(i)` behind a `-` for a negative number. */
  lemma RenderingParts(i: int)
    ensures Strip(IntToString(i)) == IntToString(i)
    ensures !HasInfoSeparator(IntToString(i))
    ensures Unsigned(IntToString(i)) == NatToString(if i < 0 then -i else i)
  {
    var s := IntToString(i);
    var digits := NatToString(if i < 0 then -i else i);
    assert !IsSpace(s[0]) && !IsSpace(s[|s| - 1]);
    StripOfTrimmed(s);
    if i < 0 {
      assert s[1..] == digits;
      assert forall k :: 0 < k < |s| ==> s[k] == digits[k - 1];
    }
  }
}
