/** The two bean-validation constraints the task form uses, as Hibernate
    Validator evaluates them: `@NotBlank` (not null, and `trim()` leaves
    something) and `@Pattern` (null passes; otherwise the whole string must
    match). The regular expression of the only `@Pattern` in the model is a
    concatenation of quantified atoms, so the matcher covers exactly that form. */
module Constraints {
  import opened Wrappers

  /** `String.trim()` strips every character at or below U+0020 from both ends. */
  predicate IsTrimmable(c: char) {
    c <= ' '
  }

  /** A string with at least one character that `trim()` keeps. */
  predicate HasVisibleChar(s: string) {
    exists i :: 0 <= i < |s| && !IsTrimmable(s[i])
  }

  /** The leading half of `String.trim()`: the longest suffix that does not start
      with a trimmable character. */
  function TrimLeading(s: string): (r: string)
    ensures |r| <= |s| && r == s[|s| - |r|..]
    ensures forall i :: 0 <= i < |s| - |r| ==> IsTrimmable(s[i])
    ensures r == [] || !IsTrimmable(r[0])
  {
    if s != [] && IsTrimmable(s[0]) then TrimLeading(s[1..]) else s
  }

  /** The trailing half of `String.trim()`: the longest prefix that does not end
      with a trimmable character. */
  function TrimTrailing(s: string): (r: string)
    ensures |r| <= |s| && r == s[..|r|]
    ensures forall i :: |r| <= i < |s| ==> IsTrimmable(s[i])
    ensures r == [] || !IsTrimmable(r[|r| - 1])
  {
    if s != [] && IsTrimmable(s[|s| - 1]) then TrimTrailing(s[..|s| - 1]) else s
  }

  function Trim(s: string): string {
    TrimTrailing(TrimLeading(s))
  }

  /** `@NotBlank`: the value is present and `trim()` does not empty it. */
  predicate NotBlank(s: Option<string>) {
    s.Some? && Trim(s.value) != []
  }

  /** Trimming empties a string exactly when every character of it is trimmable,
      so a present value is not blank exactly when it has a visible character. */
  lemma NotBlankIff(s: string)
    ensures NotBlank(Some(s)) <==> HasVisibleChar(s)
  {
  }

  /** A regular-expression atom: `\d` (ASCII digits only, as in java.util.regex
      without the UNICODE_CHARACTER_CLASS flag) or one literal character. */
  datatype Atom = Digit | Literal(c: char)

  /** An atom with an exact repetition count: `a{n}` (`a` alone is `a{1}`). */
  datatype Piece = Piece(atom: Atom, count: nat)

  /** A regular expression that is a concatenation of pieces. */
  type Pattern = seq<Piece>

  predicate IsAsciiDigit(c: char) {
    '0' <= c <= '9'
  }

  predicate AtomMatches(a: Atom, c: char) {
    match a
    case Digit => IsAsciiDigit(c)
    case Literal(l) => c == l
  }

  /** The number of characters every match of `p` has. */
  function Width(p: Pattern): nat {
    if p == [] then 0 else p[0].count + Width(p[1..])
  }

  /** `Matcher.matches()`: the whole of `s` matches `p`. Every piece has a fixed
      width, so the split between consecutive pieces is forced. */
  predicate FullMatch(p: Pattern, s: string)
    decreases p
  {
    if p == [] then s == []
    else
      var n := p[0].count;
      && n <= |s|
      && (forall i :: 0 <= i < n ==> AtomMatches(p[0].atom, s[i]))
      && FullMatch(p[1..], s[n..])
  }

  /** Every full match of `p` has exactly `Width(p)` characters. */
  lemma {:induction false} FullMatchWidth(p: Pattern, s: string)
    requires FullMatch(p, s)
    ensures |s| == Width(p)
  {
    if p != [] {
      FullMatchWidth(p[1..], s[p[0].count..]);
    }
  }

  /** `@Pattern`: a null value passes; a present one must match in full. */
  predicate MatchesPattern(s: Option<string>, p: Pattern) {
    s.None? || FullMatch(p, s.value)
  }
}
