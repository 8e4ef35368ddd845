/** The two fixed regular expressions of the core, as string predicates. */
module Patterns {
  import opened Text

  /** One or more non-white-space characters: the regular expression `\S+`. */
  predicate NonSpaceRun(s: string)
  {
    |s| > 0 && NoWhitespace(s)
  }

  /** The language of `^\S+@\S+\.\S+$`, read off the regular expression. */
  ghost predicate EmailLanguage(s: string)
  {
    exists a: string, b: string, c: string {:trigger a + "@" + b + "." + c} ::
      s == a + "@" + b + "." + c && NonSpaceRun(a) && NonSpaceRun(b) && NonSpaceRun(c)
  }

  predicate AtAndDotAt(s: string, i: int, j: int)
  {
    0 < i && i + 1 < j && j + 1 < |s| && s[i] == '@' && s[j] == '.'
  }

  /** A decision procedure for `^\S+@\S+\.\S+$`: no white space, an '@' after the first
      character, and a later '.' with a character on each side. */
  predicate IsEmail(s: string)
  {
    NoWhitespace(s) && exists i, j | 0 <= i < |s| && 0 <= j < |s| :: AtAndDotAt(s, i, j)
  }

  /** The decision procedure accepts exactly the language of the regular expression. */
  lemma EmailPatternExact(s: string)
    ensures IsEmail(s) <==> EmailLanguage(s)
  {
    if IsEmail(s) {
      EmailPatternSound(s);
    }
    if EmailLanguage(s) {
      EmailPatternComplete(s);
    }
  }

  /** Every string the decision procedure accepts splits as the regular expression reads. */
  lemma EmailPatternSound(s: string)
    requires IsEmail(s)
    ensures EmailLanguage(s)
  {
    var i, j :| 0 <= i < |s| && 0 <= j < |s| && AtAndDotAt(s, i, j);
    var a, b, c := s[..i], s[i + 1..j], s[j + 1..];
    assert s == a + "@" + b + "." + c;
    assert NonSpaceRun(a) && NonSpaceRun(b) && NonSpaceRun(c);
  }

  /** Every string of the regular expression's language is accepted by the decision procedure. */
  lemma EmailPatternComplete(s: string)
    requires EmailLanguage(s)
    ensures IsEmail(s)
  {
    var a: string, b: string, c: string :| s == a + "@" + b + "." + c && NonSpaceRun(a) && NonSpaceRun(b) && NonSpaceRun(c);
    var i, j := |a|, |a| + 1 + |b|;
    assert s[i] == '@' && s[j] == '.';
    assert AtAndDotAt(s, i, j);
    forall k | 0 <= k < |s| ensures !IsWhitespace(s[k]) {
      if k < i { assert s[k] == a[k]; }
      else if i < k < j { assert s[k] == b[k - i - 1]; }
      else if j < k { assert s[k] == c[k - j - 1]; }
    }
  }

  /** Lower-casing keeps an address an address. */
  lemma EmailLower(s: string)
    requires IsEmail(s)
    ensures IsEmail(Lower(s))
  {
    var i, j :| 0 <= i < |s| && 0 <= j < |s| && AtAndDotAt(s, i, j);
    assert AtAndDotAt(Lower(s), i, j);
  }

  /** `value.replace(/[\s-]/g, '')`. */
  function StripSpacesAndHyphens(s: string): (r: string)
    ensures NoWhitespace(r) && forall k :: 0 <= k < |r| ==> r[k] != '-'
    ensures |r| <= |s|
  {
    if s == [] then []
    else if IsWhitespace(s[0]) || s[0] == '-' then StripSpacesAndHyphens(s[1..])
    else [s[0]] + StripSpacesAndHyphens(s[1..])
  }

  /** The replacement works character by character: the image of a concatenation is the
      concatenation of the images, so the kept characters stay in their order. */
  lemma {:induction false} StripSpacesAndHyphensAppend(a: string, b: string)
    ensures StripSpacesAndHyphens(a + b) == StripSpacesAndHyphens(a) + StripSpacesAndHyphens(b)
  {
    if a == [] {
      assert a + b == b;
    } else {
      assert (a + b)[0] == a[0];
      assert (a + b)[1..] == a[1..] + b;
      StripSpacesAndHyphensAppend(a[1..], b);
    }
  }

  /** A string with neither white space nor a hyphen is left exactly as it is. */
  lemma {:induction false} StripSpacesAndHyphensKeeps(s: string)
    requires NoWhitespace(s) && forall k :: 0 <= k < |s| ==> s[k] != '-'
    ensures StripSpacesAndHyphens(s) == s
  {
    if s != [] {
      StripSpacesAndHyphensKeeps(s[1..]);
      assert s == [s[0]] + s[1..];
    }
  }

  predicate IsNonZeroDigit(c: char)
  {
    '1' <= c <= '9'
  }

  /** The digits a phone number keeps after an optional leading '+'. */
  function PhoneDigits(t: string): string
  {
    if |t| > 0 && t[0] == '+' then t[1..] else t
  }

  /** A decision procedure for `^\+?[1-9]\d{9,14}$`. */
  predicate IsPhone(t: string)
  {
    var d := PhoneDigits(t);
    10 <= |d| <= 15 && IsNonZeroDigit(d[0]) && AllDigits(d)
  }

  /** The language of `^\+?[1-9]\d{9,14}$`, read off the regular expression. */
  ghost predicate PhoneLanguage(t: string)
  {
    exists p: string, d: string {:trigger p + d} ::
      (p == "" || p == "+") && t == p + d && 10 <= |d| <= 15 && IsNonZeroDigit(d[0]) && AllDigits(d)
  }

  lemma PhonePatternExact(t: string)
    ensures IsPhone(t) <==> PhoneLanguage(t)
  {
    var d := PhoneDigits(t);
    if IsPhone(t) {
      var p := if |t| > 0 && t[0] == '+' then "+" else "";
      assert t == p + d;
    }
    if PhoneLanguage(t) {
      var p: string, e: string :| (p == "" || p == "+") && t == p + e && 10 <= |e| <= 15 && IsNonZeroDigit(e[0]) && AllDigits(e);
      if p == "" {
        assert t == e;
        assert t[0] != '+';
      } else {
        assert t[1..] == e;
      }
    }
  }
}
