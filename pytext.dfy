/** Python string and list operations that the sequence toolkit relies on,
    written over Dafny sequences: slicing with Python's index rules,
    `str.strip()`, `str.lower()`, `str.join`, `"x" * n` and `str(int)`. */
module PyText {

  /** A value or Python's `None`. */
  datatype Option<T> = None | Some(value: T)

  function Max(a: int, b: int): int {
    if a < b then b else a
  }

  /** Python's normalisation of one slice bound `x` for a sequence of length `n`:
      a negative bound counts from the end, and either kind is clamped to `[0, n]`. */
  function SliceBound(x: int, n: nat): (b: nat)
    ensures b <= n
    ensures 0 <= x <= n ==> b == x
    ensures n <= x ==> b == n
    ensures x < 0 <= x + n ==> b == x + n
    ensures x + n < 0 ==> b == 0
  {
    if x < 0 then (if x + n < 0 then 0 else x + n) else (if x < n then x else n)
  }

  /** Python's `s[a:b]` for arbitrary integer bounds. */
  function Slice<T>(s: seq<T>, a: int, b: int): (r: seq<T>)
    ensures |r| <= |s|
    ensures 0 <= a <= b <= |s| ==> r == s[a..b]
    ensures 0 <= a <= |s| <= b ==> r == s[a..]
    ensures 0 <= b <= a ==> r == []
    ensures |s| <= a ==> r == []
  {
    var lo, hi := SliceBound(a, |s|), SliceBound(b, |s|);
    if lo < hi then s[lo..hi] else []
  }

  /** The characters Python's `str.isspace()` accepts below U+0080. */
  predicate IsSpace(c: char) {
    c == ' ' || c == '\t' || c == '\n' || c == '\r' || c == '\U{000B}' || c == '\U{000C}'
    || c == '\U{001C}' || c == '\U{001D}' || c == '\U{001E}' || c == '\U{001F}'
  }

  /** `str.lstrip()`: drops the leading whitespace. */
  function StripStart(s: string): (r: string)
    ensures |r| <= |s| && r == s[|s| - |r|..]
  {
    if s != [] && IsSpace(s[0]) then StripStart(s[1..]) else s
  }

  /** What `StripStart` drops is whitespace, and what it keeps does not start with whitespace. */
  lemma {:induction false} StripStartSpaces(s: string)
    ensures forall k :: 0 <= k < |s| - |StripStart(s)| ==> IsSpace(s[k])
    ensures StripStart(s) != [] ==> !IsSpace(StripStart(s)[0])
  {
    if s != [] && IsSpace(s[0]) {
      var rest := s[1..];
      StripStartSpaces(rest);
      assert StripStart(s) == StripStart(rest);
      forall k | 1 <= k < |s| - |StripStart(s)| ensures IsSpace(s[k]) {
        assert s[k] == rest[k - 1];
      }
    }
  }

  /** `str.rstrip()`: drops the trailing whitespace. */
  function StripEnd(s: string): (r: string)
    ensures |r| <= |s| && r == s[..|r|]
  {
    if s != [] && IsSpace(s[|s| - 1]) then StripEnd(s[..|s| - 1]) else s
  }

  /** What `StripEnd` drops is whitespace, and what it keeps does not end with whitespace. */
  lemma {:induction false} StripEndSpaces(s: string)
    ensures forall k :: |StripEnd(s)| <= k < |s| ==> IsSpace(s[k])
    ensures StripEnd(s) != [] ==> !IsSpace(StripEnd(s)[|StripEnd(s)| - 1])
  {
    if s != [] && IsSpace(s[|s| - 1]) {
      var init := s[..|s| - 1];
      StripEndSpaces(init);
      assert StripEnd(s) == StripEnd(init);
      forall k | |StripEnd(s)| <= k < |s| - 1 ensures IsSpace(s[k]) {
        assert s[k] == init[k];
      }
    }
  }

  /** How many leading characters `str.strip()` drops. */
  function StripOffset(s: string): nat {
    |s| - |StripStart(s)|
  }

  /** `str.strip()`: the middle of `s` between its leading and trailing whitespace. */
  function Strip(s: string): (r: string)
    ensures StripOffset(s) + |r| <= |s| && r == s[StripOffset(s)..StripOffset(s) + |r|]
  {
    var t := StripStart(s);
    var r := StripEnd(t);
    assert r == s[|s| - |t|..][..|r|];
    r
  }

  /** `Strip` drops only whitespace, at both ends, and keeps neither a
      leading nor a trailing whitespace character. */
  lemma StripSpaces(s: string)
    ensures forall k :: 0 <= k < StripOffset(s) ==> IsSpace(s[k])
    ensures forall k :: StripOffset(s) + |Strip(s)| <= k < |s| ==> IsSpace(s[k])
    ensures Strip(s) != [] ==> !IsSpace(Strip(s)[0]) && !IsSpace(Strip(s)[|Strip(s)| - 1])
  {
    var t := StripStart(s);
    assert Strip(s) == StripEnd(t);
    StripStartSpaces(s);
    StripEndSpaces(t);
    if Strip(s) != [] {
      assert Strip(s)[0] == t[0];
    }
    forall k | StripOffset(s) + |Strip(s)| <= k < |s| ensures IsSpace(s[k]) {
      assert s[k] == t[k - StripOffset(s)];
    }
  }

  predicate IsUpper(c: char) {
    'A' <= c <= 'Z'
  }

  /** `str.lower()` on one character (ASCII letters only). */
  function LowerChar(c: char): (d: char)
    ensures !IsUpper(d)
    ensures IsUpper(c) ==> d as int == c as int + 32
    ensures !IsUpper(c) ==> d == c
  {
    if IsUpper(c) then (c as int + 32) as char else c
  }

  /** `str.lower()`: every ASCII capital replaced by its small letter. */
  function Lower(s: string): (r: string)
    ensures |r| == |s|
    ensures forall i :: 0 <= i < |s| ==> r[i] == LowerChar(s[i])
  {
    seq(|s|, i requires 0 <= i < |s| => LowerChar(s[i]))
  }

  /** `x * n` for a string `x` (empty when `n <= 0`). */
  function Repeat(x: string, n: int): string
    decreases if n < 0 then 0 else n
  {
    if n <= 0 then "" else x + Repeat(x, n - 1)
  }

  /** Repeating a one-character string `n` times gives `max(0, n)` copies of it. */
  lemma {:induction false} RepeatChar(c: char, n: int)
    ensures |Repeat([c], n)| == (if n < 0 then 0 else n)
    ensures forall i :: 0 <= i < |Repeat([c], n)| ==> Repeat([c], n)[i] == c
    decreases if n < 0 then 0 else n
  {
    if n > 0 {
      RepeatChar(c, n - 1);
    }
  }

  /** `sep.join(parts)`. */
  function Join(parts: seq<string>, sep: string): (r: string)
    ensures |parts| == 1 ==> r == parts[0]
    ensures |parts| == 0 ==> r == ""
  {
    if |parts| == 0 then ""
    else if |parts| == 1 then parts[0]
    else parts[0] + sep + Join(parts[1..], sep)
  }

  /** The length of `sep.join(parts)`: every part plus a separator between each two. */
  ghost function TotalLength(parts: seq<string>): nat {
    if parts == [] then 0 else |parts[0]| + TotalLength(parts[1..])
  }

  lemma {:induction false} JoinLength(parts: seq<string>, sep: string)
    requires |parts| > 0
    ensures |Join(parts, sep)| == TotalLength(parts) + (|parts| - 1) * |sep|
  {
    if |parts| > 1 {
      JoinLength(parts[1..], sep);
    }
  }

  /** A decimal digit character for `0 <= d < 10`. */
  function Digit(d: int): (c: char)
    requires 0 <= d < 10
    ensures '0' <= c <= '9' && c as int - '0' as int == d
  {
    ('0' as int + d) as char
  }

  /** The decimal digits of a natural number, most significant first. */
  function NatDigits(n: nat): (r: string)
    ensures r != [] && forall i :: 0 <= i < |r| ==> '0' <= r[i] <= '9'
    ensures n > 0 ==> r[0] != '0'
  {
    if n < 10 then [Digit(n)] else NatDigits(n / 10) + [Digit(n % 10)]
  }

  /** Python's `str(n)` for an integer: optional '-', then decimal digits. */
  function IntToString(n: int): (r: string)
    ensures r != []
    ensures n < 0 ==> r[0] == '-' && r[1..] == NatDigits(-n)
    ensures n >= 0 ==> r == NatDigits(n)
  {
    if n < 0 then "-" + NatDigits(-n) else NatDigits(n)
  }

  /** The value of a string of decimal digits. */
  function DecimalValue(s: string): int
    requires forall i :: 0 <= i < |s| ==> '0' <= s[i] <= '9'
  {
    if s == [] then 0 else 10 * DecimalValue(s[..|s| - 1]) + (s[|s| - 1] as int - '0' as int)
  }

  /** Reading back the digits `str(n)` writes gives `n`. */
  lemma {:induction false} NatDigitsValue(n: nat)
    ensures DecimalValue(NatDigits(n)) == n
  {
    if n >= 10 {
      NatDigitsValue(n / 10);
      var d := NatDigits(n / 10) + [Digit(n % 10)];
      assert d[..|d| - 1] == NatDigits(n / 10);
    }
  }

  /** A non-empty run of decimal digits. */
  predicate IsDigits(s: string) {
    s != [] && forall i :: 0 <= i < |s| ==> '0' <= s[i] <= '9'
  }

  /** Text `int(s)` accepts from `str`: an optional '-' and a non-empty run of digits. */
  predicate IsIntText(s: string) {
    if s != [] && s[0] == '-' then IsDigits(s[1..]) else IsDigits(s)
  }

  /** `int(s)` for text of that form. */
  function ParseInt(s: string): int
    requires IsIntText(s)
  {
    if s != [] && s[0] == '-' then -DecimalValue(s[1..]) else DecimalValue(s)
  }

  /** `int(str(n)) == n`. */
  lemma IntToStringRoundTrip(n: int)
    ensures IsIntText(IntToString(n)) && ParseInt(IntToString(n)) == n
  {
    if n < 0 {
      NatDigitsValue(-n);
    } else {
      NatDigitsValue(n);
    }
  }

  /** `[f(j, x) for j, x in enumerate(w)]`. */
  function MapIndexed<A, B>(w: seq<A>, f: (int, A) -> B): (r: seq<B>)
    ensures |r| == |w|
  {
    if w == [] then [] else MapIndexed(w[..|w| - 1], f) + [f(|w| - 1, w[|w| - 1])]
  }

  /** Element `j` of the list is `f(j, w[j])`. */
  lemma {:induction false} MapIndexedAt<A, B>(w: seq<A>, f: (int, A) -> B, j: nat)
    requires j < |w|
    ensures MapIndexed(w, f)[j] == f(j, w[j])
  {
    if j < |w| - 1 {
      MapIndexedAt(w[..|w| - 1], f, j);
    }
  }
}
