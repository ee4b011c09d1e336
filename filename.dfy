/** The names of the files a topic's manifest lists. A content file is
    called `<rank>_<name>.<type>`: a run of decimal digits, an underscore,
    a non-empty descriptive part with no line break, a dot, and one of the
    extensions `md`, `html` or `pdf`. Anything else is not a content file. */
module FileName {
  import opened Options
  import opened Strings

  datatype FileType = Md | Html | Pdf

  /** The dot and extension a name of type `t` ends with. */
  function Suffix(t: FileType): string {
    match t
    case Md => ".md"
    case Html => ".html"
    case Pdf => ".pdf"
  }

  /** What the page keeps of a content file's name: its rank, its display
      name and its type. */
  datatype Entry = Entry(rank: nat, name: string, fileType: FileType)

  predicate NoLineTerminator(s: string) {
    forall i :: 0 <= i < |s| ==> !IsLineTerminator(s[i])
  }

  /** `f` matches `^(\d+)_(.+)\.(md|html|pdf)$` with `digits`, `middle` and
      the extension of `t` as its three capture groups (the third group is
      `Suffix(t)` without its dot). */
  predicate PatternMatch(f: string, digits: string, middle: string, t: FileType) {
    && |digits| > 0 && AllDigits(digits)
    && |middle| > 0 && NoLineTerminator(middle)
    && f == digits + "_" + middle + Suffix(t)
  }

  /** `s.replace(/_/g, ' ')`. */
  function Spaced(s: string): (r: string)
    ensures |r| == |s|
    ensures forall i :: 0 <= i < |s| ==> r[i] == (if s[i] == '_' then ' ' else s[i])
  {
    seq(|s|, i requires 0 <= i < |s| => if s[i] == '_' then ' ' else s[i])
  }

  /** The type whose `.<extension>` ends `s`, if any. The three suffixes end
      in different letters, so at most one of them fits. */
  function SuffixType(s: string): Option<FileType> {
    if EndsWith(s, ".md") then Some(Md)
    else if EndsWith(s, ".html") then Some(Html)
    else if EndsWith(s, ".pdf") then Some(Pdf)
    else None
  }

  /** The manifest entry's rank, display name and type, or `None` when the
      name is not a content file's: the leading digit run must be
      non-empty and followed by `_`, the rest must end in a known
      extension, and what lies between must be non-empty and free of line
      terminators. The rank is `parseInt` of the digits, which here reads
      all of them. */
  function ParseFileName(f: string): (r: Option<Entry>)
    ensures r.Some? ==> |f| > 0 && IsDigit(f[0])
    ensures r.Some? ==> |r.value.name| > 0 && '_' !in r.value.name
  {
    var n := LeadingRun(f, IsDigit);
    if n == 0 || n == |f| || f[n] != '_' then None
    else
      var rest := f[n + 1..];
      match SuffixType(rest)
      case None => None
      case Some(t) =>
        var middle := rest[..|rest| - |Suffix(t)|];
        if middle == [] || !NoLineTerminator(middle) then None
        else Some(Entry(DecimalValue(f[..n]), Spaced(middle), t))
  }

  /** The leading digit run of a matching name is exactly its first group. */
  lemma DigitRunOfMatch(f: string, digits: string, rest: string)
    requires |digits| > 0 && AllDigits(digits)
    requires f == digits + "_" + rest
    ensures LeadingRun(f, IsDigit) == |digits|
    ensures f[..|digits|] == digits && f[|digits|] == '_' && f[|digits| + 1..] == rest
  {
    assert f[|digits|] == '_';
  }

  /** A string's last character decides which extension it can end with. */
  lemma LastCharRulesOut(s: string, suffix: string)
    requires |s| > 0 && |suffix| > 0 && s[|s| - 1] != suffix[|suffix| - 1]
    ensures !EndsWith(s, suffix)
  {
  }

  /** A name ending in `.<extension of t>` has type `t`. */
  lemma SuffixTypeOf(middle: string, t: FileType)
    ensures SuffixType(middle + Suffix(t)) == Some(t)
  {
    EndsWithOwn(middle, Suffix(t));
    match t
    case Md =>
    case Html =>
      LastCharRulesOut(middle + Suffix(t), ".md");
    case Pdf =>
      LastCharRulesOut(middle + Suffix(t), ".md");
      LastCharRulesOut(middle + Suffix(t), ".html");
  }

  /** A string ends with what was appended to it, and so with its last character. */
  lemma EndsWithOwn(middle: string, ext: string)
    requires |ext| > 0
    ensures EndsWith(middle + ext, ext)
    ensures (middle + ext)[|middle + ext| - 1] == ext[|ext| - 1]
  {
    assert (middle + ext)[|middle|..] == ext;
  }

  /** Completeness: every name the regular expression matches is accepted,
      with the decimal value of the first group as rank, the second group
      with underscores turned into spaces as name, and the third group as
      type. */
  lemma ParseComplete(f: string, digits: string, middle: string, t: FileType)
    requires PatternMatch(f, digits, middle, t)
    ensures ParseFileName(f) == Some(Entry(DecimalValue(digits), Spaced(middle), t))
  {
    MatchFacts(f, digits, middle, t);
    ParseUnfold(f, |digits|, t, middle);
  }

  /** What a match tells about the tests ParseFileName makes. */
  lemma MatchFacts(f: string, digits: string, middle: string, t: FileType)
    requires PatternMatch(f, digits, middle, t)
    ensures |digits| == LeadingRun(f, IsDigit) && 0 < |digits| < |f| && f[|digits|] == '_'
    ensures f[..|digits|] == digits
    ensures SuffixType(f[|digits| + 1..]) == Some(t)
    ensures f[|digits| + 1..][..|f[|digits| + 1..]| - |Suffix(t)|] == middle
  {
    var rest := middle + Suffix(t);
    assert f == digits + "_" + rest;
    DigitRunOfMatch(f, digits, rest);
    SuffixTypeOf(middle, t);
  }

  /** ParseFileName accepts once each of its tests is known to pass. */
  lemma ParseUnfold(f: string, n: nat, t: FileType, middle: string)
    requires n == LeadingRun(f, IsDigit) && 0 < n < |f| && f[n] == '_' && AllDigits(f[..n])
    requires SuffixType(f[n + 1..]) == Some(t)
    requires f[n + 1..][..|f[n + 1..]| - |Suffix(t)|] == middle
    requires middle != [] && NoLineTerminator(middle)
    ensures ParseFileName(f) == Some(Entry(DecimalValue(f[..n]), Spaced(middle), t))
  {
  }

  /** Soundness: every accepted name matches the regular expression, and
      the entry is made from that match's groups. Together with
      ParseComplete: a name is accepted exactly when it matches, and every
      other name is dropped. */
  lemma ParseSound(f: string)
    requires ParseFileName(f).Some?
    ensures exists digits, middle, t :: PatternMatch(f, digits, middle, t)
              && ParseFileName(f).value == Entry(DecimalValue(digits), Spaced(middle), t)
  {
    var n, t, middle := Accepted(f);
    Recompose(f, n, middle, t);
    assert PatternMatch(f, f[..n], middle, t);
  }

  /** A name is its digit run, the underscore and the rest. */
  lemma Recompose(f: string, n: nat, middle: string, t: FileType)
    requires n < |f| && f[n] == '_'
    requires f[n + 1..] == middle + Suffix(t)
    ensures f == f[..n] + "_" + middle + Suffix(t)
  {
    assert f == f[..n] + [f[n]] + f[n + 1..];
  }

  /** What ParseFileName has checked when it accepts: the digit run, the
      underscore, the type and the non-empty middle part. */
  lemma Accepted(f: string) returns (n: nat, t: FileType, middle: string)
    requires ParseFileName(f).Some?
    ensures 0 < n < |f| && f[n] == '_' && f[n + 1..] == middle + Suffix(t)
    ensures AllDigits(f[..n])
    ensures middle != [] && NoLineTerminator(middle)
    ensures ParseFileName(f).value == Entry(DecimalValue(f[..n]), Spaced(middle), t)
  {
    n := LeadingRun(f, IsDigit);
    var rest := f[n + 1..];
    t := SuffixType(rest).value;
    middle := rest[..|rest| - |Suffix(t)|];
    SuffixOfType(rest, t);
  }

  /** SuffixType only answers `t` for a string that ends in `.<extension of t>`. */
  lemma SuffixOfType(s: string, t: FileType)
    requires SuffixType(s) == Some(t)
    ensures EndsWith(s, Suffix(t))
    ensures s == s[..|s| - |Suffix(t)|] + Suffix(t)
  {
    var k := |s| - |Suffix(t)|;
    assert s == s[..k] + s[k..];
  }

  /** A suffix of a suffix of `f` is a suffix of `f`. */
  lemma SuffixOfTail(f: string, k: nat, suffix: string)
    requires k <= |f| && EndsWith(f[k..], suffix)
    ensures EndsWith(f, suffix)
  {
    assert f[|f| - |suffix|..] == f[k..][|f[k..]| - |suffix|..];
  }

  /** A name that does not start with a digit is not a content file. */
  lemma NoRankRejected(f: string)
    requires LeadingRun(f, IsDigit) == 0
    ensures ParseFileName(f).None?
  {
  }

  /** A name whose descriptive part is empty is not a content file. */
  lemma EmptyNameRejected(digits: string, t: FileType)
    requires |digits| > 0 && AllDigits(digits)
    ensures ParseFileName(digits + "_" + Suffix(t)).None?
  {
    var f := digits + "_" + Suffix(t);
    var n := |digits|;
    assert n == LeadingRun(f, IsDigit) && n < |f| && f[n] == '_' && f[n + 1..] == Suffix(t) by {
      assert f == digits + "_" + (Suffix(t));
      DigitRunOfMatch(f, digits, Suffix(t));
    }
    EmptyMiddle(f, n, t);
  }

  /** ParseFileName rejects once the part between `_` and the extension is
      known to be empty. */
  lemma EmptyMiddle(f: string, n: nat, t: FileType)
    requires n == LeadingRun(f, IsDigit) && n < |f| && f[n] == '_'
    requires f[n + 1..] == Suffix(t)
    ensures ParseFileName(f).None?
  {
    assert SuffixType(f[n + 1..]) == Some(t) by {
      assert [] + Suffix(t) == f[n + 1..];
      SuffixTypeOf([], t);
    }
    ParseUnfoldEmpty(f, n, t);
  }

  /** ParseFileName rejects once its type test passes on a tail that is
      nothing but the suffix. */
  lemma ParseUnfoldEmpty(f: string, n: nat, t: FileType)
    requires n == LeadingRun(f, IsDigit) && n < |f|
    requires SuffixType(f[n + 1..]) == Some(t) && |f[n + 1..]| == |Suffix(t)|
    ensures ParseFileName(f).None?
  {
  }

  /** A name that ends in none of `.md`, `.html` and `.pdf` is not a
      content file. */
  lemma UnknownTypeRejected(f: string)
    requires !EndsWith(f, ".md") && !EndsWith(f, ".html") && !EndsWith(f, ".pdf")
    ensures ParseFileName(f).None?
  {
    AcceptedHasType(f);
  }

  /** An accepted name ends in the extension of one of the three types. */
  lemma AcceptedHasType(f: string)
    ensures ParseFileName(f).Some? ==> EndsWith(f, ".md") || EndsWith(f, ".html") || EndsWith(f, ".pdf")
  {
    if ParseFileName(f).Some? {
      var n, t, middle := Accepted(f);
      TypedTail(f, n, middle, t);
    }
  }

  /** A name whose tail is a middle part and an extension ends in one of
      the three extensions. */
  lemma TypedTail(f: string, n: nat, middle: string, t: FileType)
    requires n < |f| && f[n + 1..] == middle + Suffix(t)
    ensures EndsWith(f, ".md") || EndsWith(f, ".html") || EndsWith(f, ".pdf")
  {
    EndsWithOwn(middle, Suffix(t));
    SuffixOfTail(f, n + 1, Suffix(t));
  }
}
