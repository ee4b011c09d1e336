/** The pieces of JavaScript's string library that the learning page relies
    on, over `string` (a sequence of UTF-16 code units in the page, of
    characters here): decimal digits and their value, `parseInt`,
    `startsWith`, `includes`, `split` with a string separator and `trim`'s
    notion of white space. */
module Strings {
  import opened Options

  // ---------------------------------------------------------------------
  // Character classes
  // ---------------------------------------------------------------------

  /** `\d` in a regular expression: an ASCII decimal digit. */
  predicate IsDigit(c: char) {
    '0' <= c <= '9'
  }

  predicate IsHexDigit(c: char) {
    IsDigit(c) || 'a' <= c <= 'f' || 'A' <= c <= 'F'
  }

  /** The line terminators of ECMAScript: LF, CR, LINE SEPARATOR and
      PARAGRAPH SEPARATOR. A regular expression's `.` matches every
      character except these. */
  predicate IsLineTerminator(c: char) {
    c == '\n' || c == '\r' || c as int == 0x2028 || c as int == 0x2029
  }

  /** The characters `String.prototype.trim` and `parseInt` strip:
      ECMAScript WhiteSpace (TAB, VT, FF, ZWNBSP and every space separator)
      and the line terminators. */
  predicate IsJsWhiteSpace(c: char) {
    var n := c as int;
    || n == 0x09 || n == 0x0B || n == 0x0C || n == 0xFEFF
    || n == 0x20 || n == 0xA0 || n == 0x1680 || (0x2000 <= n <= 0x200A)
    || n == 0x202F || n == 0x205F || n == 0x3000
    || IsLineTerminator(c)
  }

  predicate AllDigits(s: string) {
    forall i :: 0 <= i < |s| ==> IsDigit(s[i])
  }

  predicate AllHexDigits(s: string) {
    forall i :: 0 <= i < |s| ==> IsHexDigit(s[i])
  }

  /** The length of the longest prefix of `s` whose characters all satisfy `p`. */
  function LeadingRun(s: string, p: char -> bool): (n: nat)
    ensures n <= |s|
    ensures forall i :: 0 <= i < n ==> p(s[i])
    ensures n < |s| ==> !p(s[n])
    decreases |s|
  {
    if s == [] || !p(s[0]) then 0 else 1 + LeadingRun(s[1..], p)
  }

  // ---------------------------------------------------------------------
  // Numbers written in digits
  // ---------------------------------------------------------------------

  function DigitValue(c: char): (d: nat)
    requires IsDigit(c)
    ensures d < 10
  {
    c as int - '0' as int
  }

  function HexDigitValue(c: char): (d: nat)
    requires IsHexDigit(c)
    ensures d < 16
  {
    if IsDigit(c) then DigitValue(c)
    else if 'a' <= c <= 'f' then c as int - 'a' as int + 10
    else c as int - 'A' as int + 10
  }

  function DigitChar(d: nat): (c: char)
    requires d < 10
    ensures IsDigit(c) && DigitValue(c) == d
  {
    ('0' as int + d) as char
  }

  /** The number a string of decimal digits denotes, most significant digit
      first; leading zeros are allowed. */
  function DecimalValue(s: string): nat
    requires AllDigits(s)
    decreases |s|
  {
    if s == [] then 0 else 10 * DecimalValue(s[..|s| - 1]) + DigitValue(s[|s| - 1])
  }

  function HexValue(s: string): nat
    requires AllHexDigits(s)
    decreases |s|
  {
    if s == [] then 0 else 16 * HexValue(s[..|s| - 1]) + HexDigitValue(s[|s| - 1])
  }

  /** A natural number in decimal, as a template literal `${n}` writes it:
      at least one digit, no leading zero, and denoting `n`. */
  function NatToString(n: nat): (s: string)
    ensures |s| > 0 && AllDigits(s)
    ensures DecimalValue(s) == n
    ensures s[0] == '0' ==> s == "0"
    decreases n
  {
    if n < 10 then [DigitChar(n)]
    else
      var high := NatToString(n / 10);
      var s := high + [DigitChar(n % 10)];
      assert s[..|s| - 1] == high;
      s
  }

  /** `parseInt(s)` with no radix, following section 19.2.5 of ECMA-262:
      skip leading white space, take one optional sign, read hexadecimal
      digits after a `0x`/`0X` prefix and decimal digits otherwise, and
      stop at the first character that is not a digit. `None` stands for
      `NaN` (no digit at all). A negative zero reads as 0, which `===`
      does not tell from 0 either. */
  function ParseInt(s: string): (r: Option<int>)
    ensures |s| > 0 && AllDigits(s) ==> r == Some(DecimalValue(s))
    ensures (forall i :: 0 <= i < |s| ==> !IsDigit(s[i])) ==> r.None?
  {
    DigitsOnly(s);
    ReadSigned(s[LeadingRun(s, IsJsWhiteSpace)..])
  }

  /** What `parseInt` reads once the white space is skipped: one optional
      sign, then the digits. */
  function ReadSigned(t: string): Option<int> {
    if t != [] && t[0] == '-' then
      match ReadDigits(t[1..])
      case None => None
      case Some(m) => Some(-m)
    else if t != [] && t[0] == '+' then ReadDigits(t[1..])
    else ReadDigits(t)
  }

  /** The digit run at the start of `u`: hexadecimal after a `0x`/`0X`
      prefix, decimal otherwise; `None` when the run is empty. */
  function ReadDigits(u: string): Option<int> {
    if |u| >= 2 && u[0] == '0' && (u[1] == 'x' || u[1] == 'X') then
      var digits := u[2..][..LeadingRun(u[2..], IsHexDigit)];
      if digits == [] then None else Some(HexValue(digits))
    else
      var digits := u[..LeadingRun(u, IsDigit)];
      if digits == [] then None else Some(DecimalValue(digits))
  }

  /** A string of digits has no leading white space and is one digit run. */
  lemma DigitsOnly(s: string)
    ensures |s| > 0 && AllDigits(s) ==>
              && LeadingRun(s, IsJsWhiteSpace) == 0 && s[0] != '-' && s[0] != '+'
              && (|s| >= 2 ==> s[1] != 'x' && s[1] != 'X')
              && LeadingRun(s, IsDigit) == |s| && s[0..] == s && s[..|s|] == s
  {
    if |s| > 0 && AllDigits(s) {
      assert !IsJsWhiteSpace(s[0]);
    }
  }

  /** A run that starts with characters satisfying `p` goes on into what
      follows them. */
  lemma {:induction false} RunOfConcat(a: string, b: string, p: char -> bool)
    requires forall i :: 0 <= i < |a| ==> p(a[i])
    ensures LeadingRun(a + b, p) == |a| + LeadingRun(b, p)
    decreases |a|
  {
    if a == [] {
      assert a + b == b;
    } else {
      assert (a + b)[0] == a[0] && p(a[0]);
      assert (a + b)[1..] == a[1..] + b;
      RunOfConcat(a[1..], b, p);
    }
  }

  /** `parseInt` reads a string as its sign and digits once the whole
      white-space run is skipped. */
  lemma SkipsTo(ws: string, t: string)
    requires forall i :: 0 <= i < |ws| ==> IsJsWhiteSpace(ws[i])
    requires t == [] || !IsJsWhiteSpace(t[0])
    ensures ParseInt(ws + t) == ReadSigned(t)
  {
    RunOfConcat(ws, t, IsJsWhiteSpace);
    assert (ws + t)[|ws|..] == t;
  }

  /** Leading white space does not change what `parseInt` reads. */
  lemma ParseIntSkipsWhiteSpace(ws: string, s: string)
    requires forall i :: 0 <= i < |ws| ==> IsJsWhiteSpace(ws[i])
    ensures ParseInt(ws + s) == ParseInt(s)
  {
    var n := LeadingRun(s, IsJsWhiteSpace);
    assert s == s[..n] + s[n..];
    assert ws + s == (ws + s[..n]) + s[n..];
    SkipsTo(ws + s[..n], s[n..]);
    SkipsTo(s[..n], s[n..]);
  }

  /** A string that does not start with white space is read as its sign
      and digits. */
  lemma NoLeadingSpace(t: string)
    requires t == [] || !IsJsWhiteSpace(t[0])
    ensures ParseInt(t) == ReadSigned(t)
  {
    assert t[0..] == t;
  }

  /** After the white space, `-` negates what follows and `+` keeps it, when
      what follows starts with neither white space nor a second sign. */
  lemma ParseIntSign(s: string)
    requires s == [] || (!IsJsWhiteSpace(s[0]) && s[0] != '-' && s[0] != '+')
    ensures ParseInt("-" + s) == (match ParseInt(s) case None => None case Some(v) => Some(-v))
    ensures ParseInt("+" + s) == ParseInt(s)
  {
    assert ("-" + s)[0] == '-' && ("+" + s)[0] == '+';
    assert !IsJsWhiteSpace('-') && !IsJsWhiteSpace('+');
    NoLeadingSpace(s);
    NoLeadingSpace("-" + s);
    NoLeadingSpace("+" + s);
    ReadSign(s);
  }

  /** The sign step of ParseIntSign, after the white space. */
  lemma ReadSign(s: string)
    requires s == [] || (s[0] != '-' && s[0] != '+')
    ensures ReadSigned("-" + s) == (match ReadSigned(s) case None => None case Some(v) => Some(-v))
    ensures ReadSigned("+" + s) == ReadSigned(s)
  {
    assert ("-" + s)[1..] == s && ("+" + s)[1..] == s;
  }

  /** A decimal digit run followed by anything that is not a digit reads as
      the run's value: `parseInt("3abc")` is 3. The one exception is a lone
      `0` followed by `x` or `X`, which starts a hexadecimal number. */
  lemma ParseIntDecimal(d: string, rest: string)
    requires |d| > 0 && AllDigits(d)
    requires rest == [] || !IsDigit(rest[0])
    requires !(d == "0" && rest != [] && (rest[0] == 'x' || rest[0] == 'X'))
    ensures ParseInt(d + rest) == Some(DecimalValue(d))
  {
    assert ParseInt(d + rest) == ReadSigned(d + rest) by {
      DigitNotSpace(d[0]);
      NoLeadingSpace(d + rest);
    }
    ReadDecimal(d, rest);
  }

  lemma DigitNotSpace(c: char)
    requires IsDigit(c)
    ensures !IsJsWhiteSpace(c) && c != '-' && c != '+'
  {
  }

  /** The digit reading of ParseIntDecimal, after the white space and sign. */
  lemma ReadDecimal(d: string, rest: string)
    requires |d| > 0 && AllDigits(d)
    requires rest == [] || !IsDigit(rest[0])
    requires !(d == "0" && rest != [] && (rest[0] == 'x' || rest[0] == 'X'))
    ensures ReadSigned(d + rest) == Some(DecimalValue(d))
  {
    var s := d + rest;
    assert s[0] == d[0];
    DigitNotSpace(d[0]);
    assert |s| >= 2 && s[0] == '0' ==> s[1] != 'x' && s[1] != 'X' by {
      if |d| >= 2 { assert s[1] == d[1]; } else if |s| >= 2 { assert s[1] == rest[0]; }
    }
    RunOfConcat(d, rest, IsDigit);
    assert s[..|d|] == d;
  }

  /** After `0x` or `0X`, the hexadecimal digit run up to the first other
      character is read in base 16, and an empty run is `NaN`. */
  lemma ParseIntHex(x: char, h: string, rest: string)
    requires x == 'x' || x == 'X'
    requires AllHexDigits(h)
    requires rest == [] || !IsHexDigit(rest[0])
    ensures ParseInt(['0', x] + h + rest) == if h == [] then None else Some(HexValue(h))
  {
    var s := ['0', x] + h + rest;
    assert s[0] == '0' && !IsJsWhiteSpace('0');
    NoLeadingSpace(s);
    ReadHex(x, h, rest);
  }

  /** The digit reading of ParseIntHex, after the white space and sign. */
  lemma ReadHex(x: char, h: string, rest: string)
    requires x == 'x' || x == 'X'
    requires AllHexDigits(h)
    requires rest == [] || !IsHexDigit(rest[0])
    ensures ReadDigits(['0', x] + h + rest) == if h == [] then None else Some(HexValue(h))
  {
    var s := ['0', x] + h + rest;
    assert s[0] == '0' && s[1] == x && s[2..] == h + rest;
    RunOfConcat(h, rest, IsHexDigit);
    assert (h + rest)[..|h|] == h;
  }

  /** A string that starts, after any white space and sign, with something
      other than a digit reads as `NaN`. */
  lemma ParseIntNaN(s: string)
    requires s == [] || (!IsDigit(s[0]) && !IsJsWhiteSpace(s[0]) && s[0] != '-' && s[0] != '+')
    ensures ParseInt(s).None?
  {
    NoLeadingSpace(s);
  }

  /** A sign followed by white space, by a second sign or by nothing
      reads as `NaN`: only one sign is taken, and no white space after it. */
  lemma ParseIntSignThenNoDigit(c: char, s: string)
    requires c == '-' || c == '+'
    requires s == [] || IsJsWhiteSpace(s[0]) || s[0] == '-' || s[0] == '+'
    ensures ParseInt([c] + s).None?
  {
    assert !IsJsWhiteSpace(c);
    NoLeadingSpace([c] + s);
    assert ([c] + s)[1..] == s;
    assert s != [] ==> !IsDigit(s[0]);
  }

  /** Reading back what `${n}` wrote gives `n`: the rank a deep link
      carries survives the trip through the address bar. */
  lemma ParseIntNatToString(n: nat)
    ensures ParseInt(NatToString(n)) == Some(n)
  {
  }

  // ---------------------------------------------------------------------
  // Searching, splitting and joining
  // ---------------------------------------------------------------------

  predicate StartsWith(s: string, prefix: string) {
    |prefix| <= |s| && s[..|prefix|] == prefix
  }

  predicate EndsWith(s: string, suffix: string) {
    |suffix| <= |s| && s[|s| - |suffix|..] == suffix
  }

  /** `sep` occurs in `s` at position `i`. */
  predicate OccursAt(s: string, sep: string, i: nat) {
    i + |sep| <= |s| && s[i..i + |sep|] == sep
  }

  /** `s.includes(sep)`. */
  predicate Contains(s: string, sep: string) {
    exists i: nat | i <= |s| :: OccursAt(s, sep, i)
  }

  /** `s.indexOf(sep, from)`, with `None` for -1: the first occurrence at or
      after `from`. */
  function IndexOfFrom(s: string, sep: string, from: nat): (r: Option<nat>)
    ensures r.Some? ==> from <= r.value && OccursAt(s, sep, r.value)
    ensures r.Some? ==> forall j: nat :: from <= j < r.value ==> !OccursAt(s, sep, j)
    ensures r.None? ==> forall j: nat :: from <= j ==> !OccursAt(s, sep, j)
    decreases |s| - from
  {
    if from + |sep| > |s| then None
    else if OccursAt(s, sep, from) then Some(from)
    else IndexOfFrom(s, sep, from + 1)
  }

  /** A prefix that ends before the first occurrence of `sep` does not
      contain `sep`. */
  lemma PrefixBeforeFirstOccurrence(s: string, sep: string, i: nat)
    requires |sep| > 0 && i <= |s|
    requires forall j: nat :: j < i ==> !OccursAt(s, sep, j)
    ensures !Contains(s[..i], sep)
  {
    forall j: nat | OccursAt(s[..i], sep, j)
      ensures false
    {
      assert s[..i][j..j + |sep|] == s[j..j + |sep|];
      assert OccursAt(s, sep, j);
    }
  }

  /** Up to the first occurrence of `sep`, followed by all of `sep` but its
      last character, there is still no occurrence of `sep`. */
  lemma FirstPieceEndsAtFirstOccurrence(s: string, sep: string, i: nat)
    requires |sep| > 0 && OccursAt(s, sep, i)
    requires forall j: nat :: j < i ==> !OccursAt(s, sep, j)
    ensures !Contains(s[..i] + sep[..|sep| - 1], sep)
  {
    var t := s[..i] + sep[..|sep| - 1];
    assert t == s[..i + |sep| - 1] by {
      assert s[i..i + |sep|] == sep;
    }
    forall j: nat | OccursAt(t, sep, j)
      ensures false
    {
      assert t[j..j + |sep|] == s[j..j + |sep|];
      assert OccursAt(s, sep, j);
    }
  }

  function Join(parts: seq<string>, sep: string): string {
    if |parts| == 0 then ""
    else if |parts| == 1 then parts[0]
    else parts[0] + sep + Join(parts[1..], sep)
  }

  /** `s.split(sep)` for a non-empty separator: the pieces between the
      successive non-overlapping occurrences of `sep`, found left to
      right. Joining the pieces with `sep` gives `s` back, no piece
      contains `sep`, and there is more than one piece exactly when `s`
      contains `sep`. Every piece but the last ends at the first
      occurrence of `sep` after it starts: not even a piece followed by
      the start of `sep` contains `sep`, so for a separator that overlaps
      itself, such as `**`, the leftmost occurrence is the one cut at. */
  function Split(s: string, sep: string): (parts: seq<string>)
    requires |sep| > 0
    ensures |parts| > 0
    ensures Join(parts, sep) == s
    ensures forall k :: 0 <= k < |parts| ==> !Contains(parts[k], sep)
    ensures forall k :: 0 <= k < |parts| - 1 ==> !Contains(parts[k] + sep[..|sep| - 1], sep)
    ensures |parts| > 1 <==> Contains(s, sep)
    decreases |s|
  {
    match IndexOfFrom(s, sep, 0)
    case None =>
      assert !Contains(s, sep);
      [s]
    case Some(i) =>
      var rest := Split(s[i + |sep|..], sep);
      SplitStep(s, sep, i, rest);
      SplitPiecesStep(s, sep, i, rest);
      [s[..i]] + rest
  }

  /** The piece before the first occurrence of `sep`, put in front of the
      pieces of what follows that occurrence, joins back to `s`. */
  lemma SplitStep(s: string, sep: string, i: nat, rest: seq<string>)
    requires |sep| > 0 && OccursAt(s, sep, i)
    requires |rest| > 0 && Join(rest, sep) == s[i + |sep|..]
    ensures Join([s[..i]] + rest, sep) == s
  {
    var parts := [s[..i]] + rest;
    assert parts[1..] == rest;
    assert s[i..i + |sep|] == sep;
    assert s == s[..i] + sep + s[i + |sep|..];
  }

  /** That piece and the pieces of what follows keep both of Split's
      promises about pieces: none contains `sep`, and each but the last
      ends at the first occurrence of `sep`. */
  lemma SplitPiecesStep(s: string, sep: string, i: nat, rest: seq<string>)
    requires |sep| > 0 && OccursAt(s, sep, i)
    requires forall j: nat :: j < i ==> !OccursAt(s, sep, j)
    requires forall k :: 0 <= k < |rest| ==> !Contains(rest[k], sep)
    requires forall k :: 0 <= k < |rest| - 1 ==> !Contains(rest[k] + sep[..|sep| - 1], sep)
    ensures var parts := [s[..i]] + rest;
            && (forall k :: 0 <= k < |parts| ==> !Contains(parts[k], sep))
            && (forall k :: 0 <= k < |parts| - 1 ==> !Contains(parts[k] + sep[..|sep| - 1], sep))
  {
    var parts := [s[..i]] + rest;
    PrefixBeforeFirstOccurrence(s, sep, i);
    FirstPieceEndsAtFirstOccurrence(s, sep, i);
    assert forall k :: 1 <= k < |parts| ==> parts[k] == rest[k - 1];
  }

  /** Splitting on a single character yields one piece more than the
      number of times the character occurs. */
  lemma {:induction false} SplitCount(s: string, c: char)
    ensures |Split(s, [c])| == multiset(s)[c] + 1
    decreases |s|
  {
    var r := IndexOfFrom(s, [c], 0);
    if r.None? {
      assert Split(s, [c]) == [s];
      NoOccurrenceBefore(s, c, |s|);
      assert s[..|s|] == s;
    } else {
      var i := r.value;
      var rest := s[i + 1..];
      assert |Split(s, [c])| == 1 + |Split(rest, [c])|;
      SplitCount(rest, c);
      NoOccurrenceBefore(s, c, i);
      assert s == s[..i] + [c] + rest by {
        assert s[i..i + 1] == [c];
      }
      assert multiset(s) == multiset(s[..i]) + multiset{c} + multiset(rest);
    }
  }

  /** A character does not occur before its first occurrence. */
  lemma NoOccurrenceBefore(s: string, c: char, i: nat)
    requires i <= |s|
    requires forall j: nat :: j < i ==> !OccursAt(s, [c], j)
    ensures multiset(s[..i])[c] == 0
  {
    if c in s[..i] {
      var j :| 0 <= j < i && s[..i][j] == c;
      assert s[j..j + 1] == [c];
      assert OccursAt(s, [c], j);
    }
  }

  /** Every character of `s` is white space. */
  predicate IsBlank(s: string) {
    forall i :: 0 <= i < |s| ==> IsJsWhiteSpace(s[i])
  }

  /** The length of the longest suffix of `s` whose characters all satisfy `p`. */
  function TrailingRun(s: string, p: char -> bool): (n: nat)
    ensures n <= |s|
    ensures forall i :: |s| - n <= i < |s| ==> p(s[i])
    ensures n < |s| ==> !p(s[|s| - n - 1])
    decreases |s|
  {
    if s == [] || !p(s[|s| - 1]) then 0 else 1 + TrailingRun(s[..|s| - 1], p)
  }

  /** `s.trim()`: `s` without its leading and trailing white space. What
      is left is a piece of `s` that neither starts nor ends with white
      space, and every character cut off around it is white space. */
  function Trim(s: string): (t: string)
    ensures t != [] ==> !IsJsWhiteSpace(t[0]) && !IsJsWhiteSpace(t[|t| - 1])
    ensures exists a :: TrimmedAt(s, a, t)
  {
    var a := LeadingRun(s, IsJsWhiteSpace);
    var n := TrailingRun(s[a..], IsJsWhiteSpace);
    OutsideRuns(s, IsJsWhiteSpace, a, n);
    RunEnds(s, IsJsWhiteSpace, a, n);
    var t := s[a..|s| - n];
    assert t != [] ==> t[0] == s[a] && t[|t| - 1] == s[|s| - n - 1];
    assert TrimmedAt(s, a, t);
    t
  }

  /** `t` is the piece of `s` at `a`, and every character of `s` around it
      is white space. */
  predicate TrimmedAt(s: string, a: int, t: string) {
    && 0 <= a <= |s| - |t| && s[a..a + |t|] == t
    && forall i :: 0 <= i < |s| && !(a <= i < a + |t|) ==> IsJsWhiteSpace(s[i])
  }

  /** The characters just inside a string's leading run and its
      remainder's trailing run do not satisfy `p`. */
  lemma RunEnds(s: string, p: char -> bool, a: nat, n: nat)
    requires a == LeadingRun(s, p) && n == TrailingRun(s[a..], p)
    ensures a < |s| - n ==> !p(s[a]) && !p(s[|s| - n - 1])
  {
    if a < |s| - n {
      assert s[|s| - n - 1] == s[a..][|s| - a - n - 1];
    }
  }

  /** The characters before a string's leading run ends and after its
      remainder's trailing run begins all satisfy `p`. */
  lemma OutsideRuns(s: string, p: char -> bool, a: nat, n: nat)
    requires a == LeadingRun(s, p) && n == TrailingRun(s[a..], p)
    ensures a <= |s| - n
    ensures forall i :: 0 <= i < |s| && !(a <= i < |s| - n) ==> p(s[i])
  {
    forall i | 0 <= i < |s| && !(a <= i < |s| - n) ensures p(s[i]) {
      if i >= a {
        assert s[i] == s[a..][i - a];
      }
    }
  }

  /** A line is blank, as `line.trim() === ''` tests, exactly when all of
      it is white space. */
  lemma BlankIffTrimEmpty(s: string)
    ensures IsBlank(s) <==> Trim(s) == []
  {
    if IsBlank(s) {
      assert LeadingRun(s, IsJsWhiteSpace) == |s|;
    }
    if Trim(s) == [] {
      var a :| TrimmedAt(s, a, []);
    }
  }
}
