/**
 * First-name derivation for collaborators: take the text before the first
 * separator (a space, else a dot), then apply Python's `capitalize()` and
 * `strip()`. Case mapping is restricted to ASCII letters; every other
 * character passes through unchanged.
 */
module Names {

  // ---------------------------------------------------------------------
  // Characters
  // ---------------------------------------------------------------------

  predicate IsAsciiUpper(c: char) { 'A' <= c <= 'Z' }

  predicate IsAsciiLower(c: char) { 'a' <= c <= 'z' }

  /** Python's `str.isspace()` on the ASCII range: tab, newline, vertical tab,
      form feed, carriage return, the four information separators, space. */
  predicate IsSpace(c: char) {
    c == ' ' || (9 <= c as int <= 13) || (28 <= c as int <= 31)
  }

  function ToUpper(c: char): (u: char)
    ensures !IsAsciiLower(u)
    ensures IsAsciiLower(c) ==> IsAsciiUpper(u) && u as int == c as int - 32
    ensures !IsAsciiLower(c) ==> u == c
  {
    if IsAsciiLower(c) then (c as int - 32) as char else c
  }

  function ToLower(c: char): (l: char)
    ensures !IsAsciiUpper(l)
    ensures IsAsciiUpper(c) ==> IsAsciiLower(l) && l as int == c as int + 32
    ensures !IsAsciiUpper(c) ==> l == c
  {
    if IsAsciiUpper(c) then (c as int + 32) as char else c
  }

  /** Two characters are equal up to ASCII case. */
  predicate SameLetter(a: char, b: char) { ToLower(a) == ToLower(b) }

  // ---------------------------------------------------------------------
  // capitalize()
  // ---------------------------------------------------------------------

  function LowerAll(s: string): (r: string)
    ensures |r| == |s|
    ensures forall i :: 0 <= i < |s| ==> r[i] == ToLower(s[i])
  {
    seq(|s|, i requires 0 <= i < |s| => ToLower(s[i]))
  }

  /** Python `str.capitalize()`: first character upper case, the rest lower case. */
  function Capitalize(s: string): (r: string)
    ensures |r| == |s|
    ensures forall i :: 0 <= i < |s| ==> SameLetter(r[i], s[i])
    ensures |s| > 0 ==> !IsAsciiLower(r[0])
    ensures forall i :: 1 <= i < |r| ==> !IsAsciiUpper(r[i])
    ensures forall i :: 0 <= i < |s| ==> (IsSpace(r[i]) <==> IsSpace(s[i]))
  {
    if s == [] then [] else [ToUpper(s[0])] + LowerAll(s[1..])
  }

  /** Capitalizing twice is capitalizing once. */
  lemma CapitalizeIdempotent(s: string)
    ensures Capitalize(Capitalize(s)) == Capitalize(s)
  {
    var c := Capitalize(s);
    var cc := Capitalize(c);
    forall i | 0 <= i < |s| ensures cc[i] == c[i] {
      if i == 0 {
        assert cc[0] == ToUpper(c[0]);
      } else {
        assert cc[i] == ToLower(c[i]);
      }
    }
  }

  // ---------------------------------------------------------------------
  // strip()
  // ---------------------------------------------------------------------

  predicate AllSpace(s: string) { forall i :: 0 <= i < |s| ==> IsSpace(s[i]) }

  /** The length of the leading run of whitespace (what `lstrip()` drops). */
  function LeadingSpaces(s: string): (n: nat)
    ensures n <= |s|
    ensures forall i :: 0 <= i < n ==> IsSpace(s[i])
    ensures n < |s| ==> !IsSpace(s[n])
  {
    if s == [] || !IsSpace(s[0]) then 0 else 1 + LeadingSpaces(s[1..])
  }

  /** The length of the trailing run of whitespace (what `rstrip()` drops). */
  function TrailingSpaces(s: string): (n: nat)
    ensures n <= |s|
    ensures forall i :: |s| - n <= i < |s| ==> IsSpace(s[i])
    ensures n < |s| ==> !IsSpace(s[|s| - 1 - n])
  {
    if s == [] || !IsSpace(s[|s| - 1]) then 0 else 1 + TrailingSpaces(s[..|s| - 1])
  }

  /** Python `str.strip()`: the infix left after dropping the leading and the
      trailing run of whitespace; it neither starts nor ends with whitespace. */
  function Strip(s: string): (r: string)
    ensures |r| <= |s|
    ensures r == [] <==> AllSpace(s)
    ensures r != [] ==> !IsSpace(r[0]) && !IsSpace(r[|r| - 1])
    ensures LeadingSpaces(s) + |r| <= |s|
    ensures forall i :: 0 <= i < |r| ==> r[i] == s[LeadingSpaces(s) + i]
  {
    var a := LeadingSpaces(s);
    if a == |s| then []
    else
      var t := TrailingSpaces(s);
      s[a..|s| - t]
  }

  /** `strip()` removes only the two whitespace runs: what follows the result
      in the input is whitespace, so the input is leading run, result and
      trailing run. */
  lemma StripDropsOnlySpace(s: string)
    ensures AllSpace(s[LeadingSpaces(s) + |Strip(s)|..])
    ensures Strip(s) != [] ==> LeadingSpaces(s) + |Strip(s)| + TrailingSpaces(s) == |s|
  {
    var a, r := LeadingSpaces(s), Strip(s);
    if r != [] {
      assert r == s[a..|s| - TrailingSpaces(s)];
    }
  }

  /** Every character of a stripped string comes from the original. */
  lemma StripKeeps(s: string, ch: char)
    requires ch in Strip(s)
    ensures ch in s
  {
    var r := Strip(s);
    var i :| 0 <= i < |r| && r[i] == ch;
    assert s[LeadingSpaces(s) + i] == ch;
  }

  /** A string without whitespace at either end is its own strip. */
  lemma StripUnchanged(s: string)
    requires s == [] || (!IsSpace(s[0]) && !IsSpace(s[|s| - 1]))
    ensures Strip(s) == s
  {
    if s != [] {
      assert LeadingSpaces(s) == 0 && TrailingSpaces(s) == 0;
      assert s[0..|s|] == s;
    }
  }

  /** Stripping twice is stripping once. */
  lemma StripIdempotent(s: string)
    ensures Strip(Strip(s)) == Strip(s)
  {
    StripUnchanged(Strip(s));
  }

  // ---------------------------------------------------------------------
  // split(sep)[0]
  // ---------------------------------------------------------------------

  /** Python `s.split(sep)[0]` for a one-character separator: the text before
      the first occurrence of `sep`, or all of `s` when it has none. */
  function BeforeFirst(s: string, sep: char): (r: string)
    ensures |r| <= |s| && r == s[..|r|]
    ensures sep !in r
    ensures sep in s <==> |r| < |s|
    ensures |r| < |s| ==> s[|r|] == sep
  {
    if s == [] then []
    else if s[0] == sep then []
    else
      var r := BeforeFirst(s[1..], sep);
      assert s == [s[0]] + s[1..];
      assert s[..|r| + 1] == [s[0]] + s[1..][..|r|];
      [s[0]] + r
  }

  // ---------------------------------------------------------------------
  // extract_first_name
  // ---------------------------------------------------------------------

  /** A character whose lower-case form is a non-letter is that non-letter. */
  lemma SameNonLetter(a: char, b: char)
    requires SameLetter(a, b) && !IsAsciiUpper(b) && !IsAsciiLower(b)
    ensures a == b
  {
  }

  /** `capitalize()` followed by `strip()`, the normalisation applied to every
      candidate first name. */
  function CapitalizeStrip(s: string): (r: string)
    ensures |r| <= |s|
    ensures r == [] <==> AllSpace(s)
    ensures r != [] ==> !IsSpace(r[0]) && !IsSpace(r[|r| - 1])
    ensures forall i :: 1 <= i < |r| ==> !IsAsciiUpper(r[i])
    ensures ' ' in r ==> ' ' in s
    ensures '.' in r ==> '.' in s
  {
    var c := Capitalize(s);
    CapitalizeAllSpace(s);
    StripNoUpperAfterFirst(c);
    CapitalizeStripKeepsSeparator(s, ' ');
    CapitalizeStripKeepsSeparator(s, '.');
    Strip(c)
  }

  /** `capitalize()` keeps a string all-whitespace exactly when it was. */
  lemma CapitalizeAllSpace(s: string)
    ensures AllSpace(Capitalize(s)) <==> AllSpace(s)
  {
    var c := Capitalize(s);
    if AllSpace(s) {
      forall i | 0 <= i < |c| ensures IsSpace(c[i]) {
        assert IsSpace(s[i]);
      }
    }
    if AllSpace(c) {
      forall i | 0 <= i < |s| ensures IsSpace(s[i]) {
        assert IsSpace(c[i]);
      }
    }
  }

  /** A space or a dot in a capitalized string was there before. */
  lemma CapitalizeKeepsSeparator(s: string, ch: char)
    requires ch == ' ' || ch == '.'
    requires ch in Capitalize(s)
    ensures ch in s
  {
    var c := Capitalize(s);
    var k :| 0 <= k < |c| && c[k] == ch;
    SameNonLetter(s[k], c[k]);
  }

  /** Stripping keeps "no upper case after the first character". */
  lemma StripNoUpperAfterFirst(c: string)
    requires forall i :: 1 <= i < |c| ==> !IsAsciiUpper(c[i])
    ensures forall i :: 1 <= i < |Strip(c)| ==> !IsAsciiUpper(Strip(c)[i])
  {
    var r := Strip(c);
    var a := LeadingSpaces(c);
    forall i | 1 <= i < |r| ensures !IsAsciiUpper(r[i]) {
      assert r[i] == c[a + i];
    }
  }

  /** A space or a dot left by `capitalize().strip()` was in the input. */
  lemma CapitalizeStripKeepsSeparator(s: string, ch: char)
    requires ch == ' ' || ch == '.'
    ensures ch in Strip(Capitalize(s)) ==> ch in s
  {
    if ch in Strip(Capitalize(s)) {
      StripKeeps(Capitalize(s), ch);
      CapitalizeKeepsSeparator(s, ch);
    }
  }

  /** The part of a full name a first name is taken from: the text before the
      first space when there is one, otherwise the text before the first dot
      when there is one, otherwise the whole name. */
  function FirstSegment(fullName: string): (p: string)
    ensures |p| <= |fullName| && p == fullName[..|p|]
    ensures ' ' !in p
    ensures ' ' in fullName ==> |p| < |fullName| && fullName[|p|] == ' '
    ensures ' ' !in fullName && '.' in fullName ==>
              '.' !in p && |p| < |fullName| && fullName[|p|] == '.'
    ensures ' ' !in fullName && '.' !in fullName ==> p == fullName
  {
    if ' ' in fullName then BeforeFirst(fullName, ' ')
    else if '.' in fullName then BeforeFirst(fullName, '.')
    else fullName
  }

  /** The first name of a collaborator's full name: its first segment,
      capitalized and stripped. */
  function ExtractFirstName(fullName: string): (r: string)
    ensures ' ' !in r
    ensures r != [] ==> !IsSpace(r[0]) && !IsSpace(r[|r| - 1])
    ensures forall i :: 1 <= i < |r| ==> !IsAsciiUpper(r[i])
    ensures '.' in r ==> ' ' in fullName
    ensures |r| <= |fullName|
  {
    CapitalizeStrip(FirstSegment(fullName))
  }

  /** A name that starts with its separator has an empty first name. */
  lemma FirstNameOfLeadingSeparator(fullName: string)
    requires |fullName| > 0
    requires fullName[0] == ' ' || (fullName[0] == '.' && ' ' !in fullName)
    ensures ExtractFirstName(fullName) == ""
  {
    assert FirstSegment(fullName) == [];
  }

  /** A word that `extract_first_name` reproduces unchanged: non-empty, already
      capitalized, and free of whitespace and dots. */
  predicate IsFirstName(w: string) {
    w != [] && Capitalize(w) == w && '.' !in w && forall i :: 0 <= i < |w| ==> !IsSpace(w[i])
  }

  lemma CapitalizeStripFirstName(w: string)
    requires IsFirstName(w)
    ensures CapitalizeStrip(w) == w
  {
    StripUnchanged(w);
  }

  /** The segment of `w + [sep] + rest` before the first `sep` is `w`, when `w`
      has no `sep`. */
  lemma BeforeFirstOfJoin(w: string, sep: char, rest: string)
    requires sep !in w
    ensures BeforeFirst(w + [sep] + rest, sep) == w
  {
    var s := w + [sep] + rest;
    var p := BeforeFirst(s, sep);
    assert s[|w|] == sep;
    assert p == s[..|w|] == w;
  }

  /** Extraction recovers a first name from "First Rest", from "First.Rest"
      when the rest has no space, and from "First" alone. */
  lemma {:induction false} ExtractFirstNameRecovers(w: string, rest: string)
    requires IsFirstName(w)
    ensures ExtractFirstName(w + " " + rest) == w
    ensures ' ' !in rest ==> ExtractFirstName(w + "." + rest) == w
    ensures ExtractFirstName(w) == w
  {
    CapitalizeStripFirstName(w);
    var spaced := w + " " + rest;
    assert spaced[|w|] == ' ';
    BeforeFirstOfJoin(w, ' ', rest);
    assert FirstSegment(spaced) == w;
    if ' ' !in rest {
      var dotted := w + "." + rest;
      assert dotted[|w|] == '.';
      assert ' ' !in dotted;
      BeforeFirstOfJoin(w, '.', rest);
      assert FirstSegment(dotted) == w;
    }
    assert FirstSegment(w) == w;
  }
}
