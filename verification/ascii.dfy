/**
 The string operations the application applies to user input, over ASCII:
 `str.replace(" ", "")`, `str.upper()`, `str.strip()` and `str.title()`.
 Characters outside ASCII are treated as uncased and as non-whitespace.
 */
module Ascii {

  predicate IsUpper(c: char) { 'A' <= c <= 'Z' }

  predicate IsLower(c: char) { 'a' <= c <= 'z' }

  /** The ASCII cased characters. */
  predicate IsLetter(c: char) { IsUpper(c) || IsLower(c) }

  /** Python's `str.isspace()` on ASCII: TAB, LF, VT, FF, CR, the four
      information separators 0x1C-0x1F, and SPACE. */
  predicate IsSpace(c: char)
  {
    (9 <= c as int <= 13) || (28 <= c as int <= 32)
  }

  function UpperChar(c: char): (r: char)
    ensures !IsLower(r)
    ensures IsLetter(r) <==> IsLetter(c)
    ensures IsSpace(r) <==> IsSpace(c)
    ensures !IsLower(c) ==> r == c
  {
    if IsLower(c) then (c as int - 32) as char else c
  }

  function LowerChar(c: char): (r: char)
    ensures !IsUpper(r)
    ensures IsLetter(r) <==> IsLetter(c)
    ensures IsSpace(r) <==> IsSpace(c)
    ensures !IsUpper(c) ==> r == c
  {
    if IsUpper(c) then (c as int + 32) as char else c
  }

  /** Two characters that are equal, or are the upper- and lower-case forms
      of the same ASCII letter. */
  predicate SameIgnoringCase(c: char, d: char)
  {
    c == d || (IsLetter(c) && IsLetter(d) && (c as int - d as int == 32 || d as int - c as int == 32))
  }

  lemma UpperCharEqualIff(c: char, d: char)
    ensures UpperChar(c) == UpperChar(d) <==> SameIgnoringCase(c, d)
  {
  }

  /** `s.upper()` */
  function Upper(s: string): (r: string)
    ensures |r| == |s|
    ensures forall i :: 0 <= i < |s| ==> r[i] == UpperChar(s[i])
  {
    seq(|s|, i requires 0 <= i < |s| => UpperChar(s[i]))
  }

  /** `s.replace(" ", "")`: every SPACE removed, everything else kept in order. */
  function DeleteSpaces(s: string): (r: string)
    ensures ' ' !in r
    ensures |r| <= |s|
  {
    if |s| == 0 then []
    else (if s[0] == ' ' then [] else [s[0]]) + DeleteSpaces(s[1..])
  }

  /** A string without spaces is left as it is. */
  lemma {:induction false} DeleteSpacesNone(s: string)
    requires ' ' !in s
    ensures DeleteSpaces(s) == s
  {
    if |s| > 0 {
      assert s[0] in s;
      assert forall k :: 0 <= k < |s[1..]| ==> s[1..][k] == s[k + 1];
      DeleteSpacesNone(s[1..]);
      assert [s[0]] + s[1..] == s;
    }
  }

  /** Deleting spaces works piecewise. */
  lemma {:induction false} DeleteSpacesAppend(a: string, b: string)
    ensures DeleteSpaces(a + b) == DeleteSpaces(a) + DeleteSpaces(b)
    decreases |a|
  {
    if |a| == 0 {
      assert a + b == b;
    } else {
      var ab := a + b;
      assert ab[0] == a[0];
      assert ab[1..] == a[1..] + b;
      DeleteSpacesAppend(a[1..], b);
      var head := if a[0] == ' ' then [] else [a[0]];
      assert DeleteSpaces(ab) == head + DeleteSpaces(a[1..] + b);
      assert DeleteSpaces(a) == head + DeleteSpaces(a[1..]);
    }
  }

  /** Number of whitespace characters at the front of `s`. */
  function LeadingSpaces(s: string): (n: nat)
    ensures n <= |s|
    ensures forall k :: 0 <= k < n ==> IsSpace(s[k])
    ensures n < |s| ==> !IsSpace(s[n])
  {
    if |s| == 0 || !IsSpace(s[0]) then 0 else 1 + LeadingSpaces(s[1..])
  }

  /** Number of whitespace characters at the back of `s`. */
  function TrailingSpaces(s: string): (n: nat)
    ensures n <= |s|
    ensures forall k :: |s| - n <= k < |s| ==> IsSpace(s[k])
    ensures n < |s| ==> !IsSpace(s[|s| - 1 - n])
  {
    if |s| == 0 || !IsSpace(s[|s| - 1]) then 0 else 1 + TrailingSpaces(s[..|s| - 1])
  }

  predicate AllSpace(s: string)
  {
    forall k :: 0 <= k < |s| ==> IsSpace(s[k])
  }

  /** Neither end of `s` is whitespace (vacuously true of the empty string). */
  predicate Trimmed(s: string)
  {
    |s| == 0 || (!IsSpace(s[0]) && !IsSpace(s[|s| - 1]))
  }

  /** `s.strip()`: the contiguous middle of `s` left after removing all
      leading and all trailing whitespace. */
  function Strip(s: string): (r: string)
    ensures Trimmed(r)
    ensures exists i :: 0 <= i <= |s| - |r| && r == s[i..i + |r|] && AllSpace(s[..i]) && AllSpace(s[i + |r|..])
  {
    var lead := LeadingSpaces(s);
    var rest := s[lead..];
    var r := rest[..|rest| - TrailingSpaces(rest)];
    assert r == s[lead..lead + |r|];
    assert AllSpace(s[..lead]);
    assert AllSpace(s[lead + |r|..]) by {
      assert s[lead + |r|..] == rest[|r|..];
    }
    assert 0 <= lead <= |s| - |r| && r == s[lead..lead + |r|] && AllSpace(s[..lead]) && AllSpace(s[lead + |r|..]);
    r
  }

  lemma StripTrimmed(s: string)
    requires Trimmed(s)
    ensures Strip(s) == s
  {
    if |s| > 0 {
      assert LeadingSpaces(s) == 0;
      assert TrailingSpaces(s) == 0;
    }
  }

  /** A string of whitespace strips to nothing. */
  lemma StripAllSpace(s: string)
    requires AllSpace(s)
    ensures Strip(s) == ""
  {
    assert LeadingSpaces(s) == |s|;
  }

  /** `str.title()` as a left-to-right scan: `wordOpen` says whether the
      previous character was cased.  A letter that opens a word is
      upper-cased, a letter inside a word is lower-cased, and every other
      character is kept and closes the word. */
  function TitleFrom(s: string, wordOpen: bool): (r: string)
    ensures |r| == |s|
  {
    if |s| == 0 then []
    else if IsLetter(s[0]) then
      [if wordOpen then LowerChar(s[0]) else UpperChar(s[0])] + TitleFrom(s[1..], true)
    else [s[0]] + TitleFrom(s[1..], false)
  }

  /** `s.title()`: every letter that starts a word is upper-cased, every other
      letter lower-cased, and everything else kept. */
  function Title(s: string): (r: string)
    ensures |r| == |s|
    ensures forall i :: 0 <= i < |s| ==> r[i] == TitleCharAt(s, i)
  {
    TitleFromAll(s);
    TitleFrom(s, false)
  }

  /** Whether position `i` of `s` starts a word: no cased character precedes it. */
  predicate StartsWord(s: string, i: nat)
    requires i < |s|
  {
    i == 0 || !IsLetter(s[i - 1])
  }

  /** What `title()` puts at position `i`, stated positionally. */
  function TitleCharAt(s: string, i: nat): char
    requires i < |s|
  {
    if !IsLetter(s[i]) then s[i]
    else if StartsWord(s, i) then UpperChar(s[i])
    else LowerChar(s[i])
  }

  lemma {:induction false} TitleFromAt(s: string, wordOpen: bool, i: nat)
    requires i < |s|
    ensures TitleFrom(s, wordOpen)[i] ==
      if !IsLetter(s[i]) then s[i]
      else if (i == 0 && !wordOpen) || (i > 0 && !IsLetter(s[i - 1])) then UpperChar(s[i])
      else LowerChar(s[i])
    decreases i
  {
    if i > 0 {
      TitleFromAt(s[1..], IsLetter(s[0]), i - 1);
      assert s[1..][i - 1] == s[i];
      if i > 1 {
        assert s[1..][i - 2] == s[i - 1];
      }
    }
  }

  /** The scan agrees with the positional description of `title()`. */
  /** The scan agrees with the positional description of `title()`. */
  lemma TitleFromAll(s: string)
    ensures forall i :: 0 <= i < |s| ==> TitleFrom(s, false)[i] == TitleCharAt(s, i)
  {
    forall i | 0 <= i < |s|
      ensures TitleFrom(s, false)[i] == TitleCharAt(s, i)
    {
      TitleFromAt(s, false, i);
    }
  }

  /** `title()` changes letters only: whitespace and non-letters stay put. */
  lemma TitleKeepsShape(s: string)
    ensures forall i :: 0 <= i < |s| ==> (IsLetter(Title(s)[i]) <==> IsLetter(s[i]))
    ensures forall i :: 0 <= i < |s| ==> (IsSpace(Title(s)[i]) <==> IsSpace(s[i]))
  {
  }

  lemma TitleIdempotent(s: string)
    ensures Title(Title(s)) == Title(s)
  {
    var t := Title(s);
    forall i | 0 <= i < |s|
      ensures Title(t)[i] == t[i]
    {
      if i > 0 {
        assert IsLetter(t[i - 1]) <==> IsLetter(s[i - 1]);
      }
    }
  }

  lemma TitleKeepsTrimmed(s: string)
    requires Trimmed(s)
    ensures Trimmed(Title(s))
  {
    TitleKeepsShape(s);
  }
}
