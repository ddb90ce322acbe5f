/**
 * Character classes and the string operations of JavaScript that the core relies on:
 * `toUpperCase`, `split('\n')` and `trim()`.
 */
module Text {

  /** `\d` */
  predicate IsDigit(c: char) { '0' <= c <= '9' }

  /** `\w` (ASCII letters, digits and underscore; no `u` flag in the source's patterns) */
  predicate IsWordChar(c: char) {
    'a' <= c <= 'z' || 'A' <= c <= 'Z' || IsDigit(c) || c == '_'
  }

  /** `\s`, which is also what `String.prototype.trim` removes: white space and line terminators. */
  predicate IsSpace(c: char) {
    c == ' ' || c == '\t' || c == '\n' || c == '\r' || c == '\U{000B}' || c == '\U{000C}' ||
    c == '\U{00A0}' || c == '\U{1680}' || ('\U{2000}' <= c <= '\U{200A}') ||
    c == '\U{2028}' || c == '\U{2029}' || c == '\U{202F}' || c == '\U{205F}' ||
    c == '\U{3000}' || c == '\U{FEFF}'
  }

  /** The character classes the source's patterns use. */
  datatype CharClass = Space | Digit | WordChar | DigitOrDot

  predicate In(c: char, charClass: CharClass) {
    match charClass
    case Space => IsSpace(c)
    case Digit => IsDigit(c)
    case WordChar => IsWordChar(c)
    case DigitOrDot => IsDigit(c) || c == '.'
  }

  /** The end of the run of characters of `charClass` that starts at `i` (a greedy `charClass*`). */
  function Span(s: string, i: nat, charClass: CharClass): (j: nat)
    requires i <= |s|
    ensures i <= j <= |s|
    ensures forall k :: i <= k < j ==> In(s[k], charClass)
    ensures j == |s| || !In(s[j], charClass)
    decreases |s| - i
  {
    if i < |s| && In(s[i], charClass) then Span(s, i + 1, charClass) else i
  }

  /** `s[i..j]` is a maximal run of `charClass`: what a greedy `charClass*` matches from `i`. */
  predicate MaxRun(s: string, i: nat, j: nat, charClass: CharClass) {
    i <= j <= |s| && (forall k :: i <= k < j ==> In(s[k], charClass)) && (j == |s| || !In(s[j], charClass))
  }

  /** A greedy run has one end, and `Span` finds it. */
  lemma MaxRunIsSpan(s: string, i: nat, j: nat, charClass: CharClass)
    requires MaxRun(s, i, j, charClass)
    ensures j == Span(s, i, charClass)
  {
  }

  predicate IsLower(c: char) { 'a' <= c <= 'z' }

  function UpperChar(c: char): char {
    if IsLower(c) then (c as int - 'a' as int + 'A' as int) as char else c
  }

  /** `toUpperCase`, on the ASCII range (the only range the parser's `\w` captures contain). */
  function Upper(s: string): (r: string)
    ensures |r| == |s|
    ensures forall i :: 0 <= i < |r| ==> !IsLower(r[i])
    ensures forall i :: 0 <= i < |s| && !IsLower(s[i]) ==> r[i] == s[i]
    ensures forall i :: 0 <= i < |s| && IsLower(s[i]) ==> r[i] as int == s[i] as int - 32
  {
    seq(|s|, i requires 0 <= i < |s| => UpperChar(s[i]))
  }

  /** `c` is the upper-case letter `u` written in either case. */
  predicate SameLetter(c: char, u: char) {
    c == u || c as int == u as int + 32
  }

  /**
   * Comparing `s.toUpperCase()` with a word in capitals, as the direction tests do, accepts
   * exactly that word written in any mix of cases.
   */
  lemma UpperEqualsIgnoringCase(s: string, word: string)
    requires forall i :: 0 <= i < |word| ==> 'A' <= word[i] <= 'Z'
    ensures Upper(s) == word <==> |s| == |word| && forall i :: 0 <= i < |s| ==> SameLetter(s[i], word[i])
  {
    if |s| == |word| && forall i :: 0 <= i < |s| ==> SameLetter(s[i], word[i]) {
      forall i | 0 <= i < |s| ensures Upper(s)[i] == word[i] {
        if !IsLower(s[i]) {
          assert s[i] == word[i];
        }
      }
    }
  }

  /** `s.split(sep)`: the pieces between occurrences of `sep`; never empty (`"".split(sep)` is `[""]`). */
  function Split(s: string, sep: char): (r: seq<string>)
    ensures |r| >= 1
    ensures forall k :: 0 <= k < |r| ==> sep !in r[k]
  {
    if s == [] then [[]]
    else
      var rest := Split(s[1..], sep);
      if s[0] == sep then [[]] + rest
      else [[s[0]] + rest[0]] + rest[1..]
  }

  /** `parts.join(sep)`, the inverse of `Split`. */
  function Join(parts: seq<string>, sep: char): string
    requires |parts| >= 1
  {
    if |parts| == 1 then parts[0] else parts[0] + [sep] + Join(parts[1..], sep)
  }

  /** Splitting loses nothing: joining the pieces with the separator gives the text back. */
  lemma {:induction false} SplitJoin(s: string, sep: char)
    ensures Join(Split(s, sep), sep) == s
  {
    if s != [] {
      var rest := Split(s[1..], sep);
      SplitJoin(s[1..], sep);
      if s[0] == sep {
        assert Split(s, sep) == [[]] + rest;
        assert ([[]] + rest)[1..] == rest;
      } else {
        var r := Split(s, sep);
        assert r == [[s[0]] + rest[0]] + rest[1..];
        if |rest| == 1 {
          assert Join(rest, sep) == rest[0];
        } else {
          assert Join(rest, sep) == rest[0] + [sep] + Join(rest[1..], sep);
          assert r[1..] == rest[1..];
        }
      }
    }
  }

  /** `trimStart()`: drops the leading white space, and only that. */
  function TrimStart(s: string): (r: string)
    ensures |r| <= |s| && r == s[|s| - |r|..]
    ensures forall i :: 0 <= i < |s| - |r| ==> IsSpace(s[i])
    ensures r == [] || !IsSpace(r[0])
  {
    if s != [] && IsSpace(s[0]) then TrimStart(s[1..]) else s
  }

  /** `trimEnd()`: drops the trailing white space, and only that. */
  function TrimEnd(s: string): (r: string)
    ensures |r| <= |s| && r == s[..|r|]
    ensures forall i :: |r| <= i < |s| ==> IsSpace(s[i])
    ensures r == [] || !IsSpace(r[|r| - 1])
  {
    if s != [] && IsSpace(s[|s| - 1]) then TrimEnd(s[..|s| - 1]) else s
  }

  /** `trim()` */
  function Trim(s: string): (r: string)
    ensures r == [] || (!IsSpace(r[0]) && !IsSpace(r[|r| - 1]))
  {
    TrimEnd(TrimStart(s))
  }
}
