/** String helpers mirroring the JavaScript string operations the core relies on. */
module Text {
  import opened Wrappers

  /** JavaScript truthiness of an optional number: present and non-zero. */
  predicate TruthyNumber(n: Option<int>)
  {
    n.Some? && n.value != 0
  }

  /** The positions of `s` holding a character outside the Basic Multilingual Plane, which
      UTF-16 writes as a surrogate pair. */
  function Astral(s: string): set<nat>
  {
    set i: nat | i < |s| && s[i] as int >= 0x10000
  }

  /** `String.prototype.length`, which Mongoose's `minlength` and `maxlength` also use: the number
      of UTF-16 code units, one per character plus one more per surrogate pair. */
  function JsLength(s: string): nat
  {
    |s| + |Astral(s)|
  }

  /** Every character is one or two code units, so only the empty string has length zero. */
  lemma {:induction false} JsLengthBounds(s: string)
    ensures |s| <= JsLength(s) <= 2 * |s|
  {
    if s != [] {
      var t := s[..|s| - 1];
      JsLengthBounds(t);
      var last := {|s| - 1};
      assert Astral(s) <= Astral(t) + last by {
        forall i | i in Astral(s) ensures i in Astral(t) + last {
          if i < |t| {
            assert t[i] == s[i];
          }
        }
      }
      assert Astral(s) + (Astral(t) + last - Astral(s)) == Astral(t) + last;
    }
  }

  /** Inside the Basic Multilingual Plane the JavaScript length is the number of characters. */
  lemma JsLengthBmp(s: string)
    requires forall i :: 0 <= i < |s| ==> s[i] as int < 0x10000
    ensures JsLength(s) == |s|
  {
    assert Astral(s) == {};
  }

  /** One character outside the Basic Multilingual Plane makes the length exceed the character count. */
  lemma JsLengthAstral(s: string, i: nat)
    requires i < |s| && s[i] as int >= 0x10000
    ensures JsLength(s) > |s|
  {
    assert i in Astral(s);
  }

  /** Two emoji are two characters but four code units. */
  lemma JsLengthEmoji()
    ensures |"\U{1F600}\U{1F600}"| == 2 && JsLength("\U{1F600}\U{1F600}") == 4
  {
    var s := "\U{1F600}\U{1F600}";
    assert Astral(s) == {0, 1};
  }

  /** The characters that ECMAScript's `\s` class and `String.prototype.trim` treat as white space. */
  predicate IsWhitespace(c: char)
  {
    || c == ' ' || c == '\t' || c == '\n' || c == '\r' || c == '\U{B}' || c == '\U{C}'
    || c == '\U{A0}' || c == '\U{1680}' || ('\U{2000}' <= c <= '\U{200A}')
    || c == '\U{2028}' || c == '\U{2029}' || c == '\U{202F}' || c == '\U{205F}'
    || c == '\U{3000}' || c == '\U{FEFF}'
  }

  predicate NoWhitespace(s: string)
  {
    forall i :: 0 <= i < |s| ==> !IsWhitespace(s[i])
  }

  predicate AllWhitespace(s: string)
  {
    forall i :: 0 <= i < |s| ==> IsWhitespace(s[i])
  }

  /** The number of white-space characters at the start of `s`. */
  function LeadingWhitespace(s: string): (k: nat)
    ensures k <= |s| && AllWhitespace(s[..k])
    ensures k == |s| || !IsWhitespace(s[k])
  {
    if |s| > 0 && IsWhitespace(s[0]) then
      var k := LeadingWhitespace(s[1..]);
      assert s[..k + 1] == [s[0]] + s[1..][..k];
      k + 1
    else
      0
  }

  /** The number of white-space characters at the end of `s`. */
  function TrailingWhitespace(s: string): (k: nat)
    ensures k <= |s| && AllWhitespace(s[|s| - k..])
    ensures k == |s| || !IsWhitespace(s[|s| - k - 1])
  {
    if |s| > 0 && IsWhitespace(s[|s| - 1]) then
      var t := s[..|s| - 1];
      var k := TrailingWhitespace(t);
      assert s[|s| - (k + 1)..] == t[|t| - k..] + [s[|s| - 1]];
      assert k < |t| ==> s[|s| - (k + 1) - 1] == t[|t| - k - 1];
      k + 1
    else
      0
  }

  /** JavaScript `trimStart`: drops the leading white space and nothing else. */
  function TrimStart(s: string): string
  {
    s[LeadingWhitespace(s)..]
  }

  /** JavaScript `trimEnd`: drops the trailing white space and nothing else. */
  function TrimEnd(s: string): string
  {
    s[..|s| - TrailingWhitespace(s)]
  }

  /** JavaScript `trim`, which Mongoose's `trim: true` setter applies: the white space at both ends
      goes, the characters between stay in order, and the result neither starts nor ends with white
      space. */
  function Trim(s: string): (r: string)
    ensures var k := LeadingWhitespace(s);
            && k + |r| <= |s| && r == s[k..k + |r|]
            && AllWhitespace(s[..k]) && AllWhitespace(s[k + |r|..])
    ensures r == [] || (!IsWhitespace(r[0]) && !IsWhitespace(r[|r| - 1]))
  {
    var t := TrimStart(s);
    var k := LeadingWhitespace(s);
    assert s[k + |TrimEnd(t)|..] == t[|TrimEnd(t)|..];
    TrimEnd(t)
  }

  lemma {:induction false} TrimStartNoop(s: string)
    requires s == [] || !IsWhitespace(s[0])
    ensures TrimStart(s) == s
  {
  }

  lemma {:induction false} TrimEndNoop(s: string)
    requires s == [] || !IsWhitespace(s[|s| - 1])
    ensures TrimEnd(s) == s
  {
  }

  /** A string with no white space at all is its own trim. */
  lemma TrimNoWhitespace(s: string)
    requires NoWhitespace(s)
    ensures Trim(s) == s
  {
    TrimStartNoop(s);
    TrimEndNoop(s);
  }

  /** Lower-casing of the ASCII letters (the part of `toLowerCase` this model keeps). */
  function LowerChar(c: char): (r: char)
    ensures IsWhitespace(r) <==> IsWhitespace(c)
  {
    if 'A' <= c <= 'Z' then (c as int - 'A' as int + 'a' as int) as char else c
  }

  function Lower(s: string): (r: string)
    ensures |r| == |s|
    ensures forall i :: 0 <= i < |s| ==> r[i] == LowerChar(s[i])
  {
    seq(|s|, i requires 0 <= i < |s| => LowerChar(s[i]))
  }

  /** JavaScript `includes` on strings. */
  predicate Contains(s: string, part: string)
  {
    exists i | 0 <= i <= |s| - |part| :: OccursAt(s, part, i)
  }

  predicate OccursAt(s: string, part: string, i: int)
  {
    0 <= i <= |s| - |part| && s[i..i + |part|] == part
  }

  /** JavaScript `Array.prototype.join`. */
  function Join(items: seq<string>, sep: string): string
  {
    if |items| == 0 then ""
    else if |items| == 1 then items[0]
    else items[0] + sep + Join(items[1..], sep)
  }

  predicate IsDigit(c: char)
  {
    '0' <= c <= '9'
  }

  predicate AllDigits(s: string)
  {
    forall i :: 0 <= i < |s| ==> IsDigit(s[i])
  }

  function DigitChar(d: nat): (c: char)
    requires d < 10
    ensures IsDigit(c)
  {
    ('0' as int + d) as char
  }

  /** The numeric value of a string of decimal digits. */
  function DigitsValue(s: string): nat
    requires AllDigits(s)
  {
    if s == [] then 0 else DigitsValue(s[..|s| - 1]) * 10 + (s[|s| - 1] as int - '0' as int)
  }

  /** `n.toString()` for a non-negative integer. */
  function NatToString(n: nat): (r: string)
    ensures |r| > 0 && AllDigits(r)
  {
    if n < 10 then [DigitChar(n)] else NatToString(n / 10) + [DigitChar(n % 10)]
  }

  /** Reading back the decimal rendering gives the number. */
  lemma {:induction false} NatToStringValue(n: nat)
    ensures DigitsValue(NatToString(n)) == n
  {
    if n >= 10 {
      var s := NatToString(n);
      assert s[..|s| - 1] == NatToString(n / 10);
      NatToStringValue(n / 10);
    }
  }

  /** The decimal rendering has no more digits than the bound it stays below. */
  lemma {:induction false} NatToStringLength(n: nat, width: nat, bound: nat)
    requires n < bound
    requires width > 0 && bound == Power10(width)
    ensures |NatToString(n)| <= width
  {
    if n >= 10 {
      assert Power10(1) == 10;
      assert width > 1;
      assert Power10(width) == 10 * Power10(width - 1);
      NatToStringLength(n / 10, width - 1, Power10(width - 1));
    }
  }

  /** A number between 10^(width-1) and 10^width renders with exactly `width` digits. */
  lemma {:induction false} NatToStringWidth(n: nat, width: nat)
    requires width > 0 && Power10(width - 1) <= n < Power10(width)
    ensures |NatToString(n)| == width
  {
    if width == 1 {
      assert Power10(1) == 10;
    } else {
      assert Power10(width) == 10 * Power10(width - 1);
      assert Power10(width - 1) == 10 * Power10(width - 2);
      assert n >= 10;
      NatToStringWidth(n / 10, width - 1);
    }
  }

  function Power10(k: nat): (r: nat)
    ensures r > 0
  {
    if k == 0 then 1 else 10 * Power10(k - 1)
  }

  /** `String(i)` for an integer. */
  function IntToString(i: int): string
  {
    if i < 0 then "-" + NatToString(-i) else NatToString(i)
  }

  /** JavaScript `padStart(width, c)`: `c` in front of `s` until the string is `width` long. */
  function PadStart(s: string, width: nat, c: char): (r: string)
    ensures |r| == if |s| >= width then |s| else width
  {
    if |s| >= width then s else [c] + PadStart(s, width - 1, c)
  }

  /** The padded string ends with the original and is filled with `c` in front of it. */
  lemma {:induction false} PadStartMeaning(s: string, width: nat, c: char)
    ensures var r := PadStart(s, width, c);
            && r[|r| - |s|..] == s
            && forall i :: 0 <= i < |r| - |s| ==> r[i] == c
  {
    if |s| < width {
      var t := PadStart(s, width - 1, c);
      PadStartMeaning(s, width - 1, c);
      var r := [c] + t;
      assert r[|r| - |s|..] == t[|t| - |s|..];
      assert forall i :: 0 < i < |r| - |s| ==> r[i] == t[i - 1];
    }
  }

  /** Padding with '0' keeps a digit string a digit string with the same value. */
  lemma {:induction false} PadZerosValue(s: string, width: nat)
    requires AllDigits(s)
    ensures AllDigits(PadStart(s, width, '0'))
    ensures DigitsValue(PadStart(s, width, '0')) == DigitsValue(s)
  {
    if |s| < width {
      PadZerosValue(s, width - 1);
      LeadingZeroValue(PadStart(s, width - 1, '0'));
    }
  }

  /** A leading zero does not change the value. */
  lemma {:induction false} LeadingZeroValue(s: string)
    requires AllDigits(s)
    ensures AllDigits(['0'] + s)
    ensures DigitsValue(['0'] + s) == DigitsValue(s)
  {
    var t := ['0'] + s;
    if s == [] {
      assert t[..0] == [];
    } else {
      var u := s[..|s| - 1];
      assert t[..|t| - 1] == ['0'] + u;
      LeadingZeroValue(u);
    }
  }
}
