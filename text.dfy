/**
 * Character and string primitives the pipeline relies on: the digit class of
 * the regular expression `\D`, the whitespace of `str.strip`, `str.lower`
 * and the substring test `needle in hay`.
 */
module Text {

  /** A decimal digit, the complement of the regular-expression class `\D`. */
  predicate IsDigit(c: char) {
    '0' <= c <= '9'
  }

  /** The characters Python's `str.isspace` accepts, which `str.strip` removes. */
  predicate IsSpace(c: char) {
    || c == ' '
    || '\U{9}' <= c <= '\U{D}'
    || '\U{1C}' <= c <= '\U{1F}'
    || c == '\U{85}'
    || c == '\U{A0}'
    || c == '\U{1680}'
    || '\U{2000}' <= c <= '\U{200A}'
    || c == '\U{2028}'
    || c == '\U{2029}'
    || c == '\U{202F}'
    || c == '\U{205F}'
    || c == '\U{3000}'
  }

  /** `s.lstrip()`: drops the leading whitespace. */
  function StripLeading(s: string): (r: string)
    ensures |r| <= |s| && r == s[|s| - |r|..]
    ensures r == [] || !IsSpace(r[0])
    ensures forall k :: 0 <= k < |s| - |r| ==> IsSpace(s[k])
  {
    if s != [] && IsSpace(s[0]) then StripLeading(s[1..]) else s
  }

  /** `s.rstrip()`: drops the trailing whitespace. */
  function StripTrailing(s: string): (r: string)
    ensures |r| <= |s| && r == s[..|r|]
    ensures r == [] || !IsSpace(r[|r| - 1])
    ensures forall k :: |r| <= k < |s| ==> IsSpace(s[k])
  {
    if s != [] && IsSpace(s[|s| - 1]) then StripTrailing(s[..|s| - 1]) else s
  }

  /** `s.strip()`: the part of `s` left after its leading and trailing whitespace. */
  function Strip(s: string): (r: string)
    ensures |r| <= |StripLeading(s)| && r == StripLeading(s)[..|r|]
    ensures forall k :: |r| <= k < |StripLeading(s)| ==> IsSpace(StripLeading(s)[k])
    ensures r == [] || (!IsSpace(r[0]) && !IsSpace(r[|r| - 1]))
  {
    StripTrailing(StripLeading(s))
  }

  /** `s.strip() == ""`: exactly the texts made of whitespace only, the empty one included. */
  predicate IsBlank(s: string)
    ensures IsBlank(s) <==> forall k :: 0 <= k < |s| ==> IsSpace(s[k])
  {
    var lead := StripLeading(s);
    assert lead != [] ==> StripTrailing(lead) != [];
    Strip(s) == ""
  }

  /** `re.sub(r'\D', '', s)`: the digits of `s`, in their order. */
  function Digits(s: string): (r: string)
    ensures |r| <= |s|
    ensures forall k :: 0 <= k < |r| ==> IsDigit(r[k])
  {
    if s == [] then []
    else
      (if IsDigit(s[0]) then [s[0]] else []) + Digits(s[1..])
  }

  /** Removing non-digits distributes over concatenation, so the order of the digits is kept. */
  lemma {:induction false} DigitsOfConcat(a: string, b: string)
    ensures Digits(a + b) == Digits(a) + Digits(b)
  {
    if a == [] {
      assert a + b == b;
    } else {
      var head := if IsDigit(a[0]) then [a[0]] else [];
      assert (a + b)[0] == a[0];
      assert (a + b)[1..] == a[1..] + b;
      assert Digits(a) == head + Digits(a[1..]);
      assert Digits(a + b) == head + Digits(a[1..] + b);
      DigitsOfConcat(a[1..], b);
      assert head + (Digits(a[1..]) + Digits(b)) == (head + Digits(a[1..])) + Digits(b);
    }
  }

  /** Every digit of the text is kept, as often as it occurs, and nothing else is. */
  lemma {:induction false} DigitsCount(s: string, c: char)
    ensures multiset(Digits(s))[c] == if IsDigit(c) then multiset(s)[c] else 0
  {
    if s != [] {
      assert s == [s[0]] + s[1..];
      DigitsCount(s[1..], c);
    }
  }

  /** A text with no digits is removed entirely. */
  lemma {:induction false} DigitsOfNonDigits(s: string)
    requires forall k :: 0 <= k < |s| ==> !IsDigit(s[k])
    ensures Digits(s) == []
  {
    if s != [] {
      DigitsOfNonDigits(s[1..]);
    }
  }

  /** A text made of digits only is left as it is. */
  lemma {:induction false} DigitsOfDigitString(s: string)
    requires forall k :: 0 <= k < |s| ==> IsDigit(s[k])
    ensures Digits(s) == s
  {
    if s != [] {
      DigitsOfDigitString(s[1..]);
    }
  }

  /** A run of digits followed by a separator contributes exactly its digits. */
  lemma DigitsAcrossSeparator(run: string, sep: string, rest: string)
    requires forall k :: 0 <= k < |run| ==> IsDigit(run[k])
    requires forall k :: 0 <= k < |sep| ==> !IsDigit(sep[k])
    ensures Digits(run + sep + rest) == run + Digits(rest)
  {
    var head := run + sep;
    DigitsOfConcat(head, rest);
    DigitsOfConcat(run, sep);
    DigitsOfDigitString(run);
    DigitsOfNonDigits(sep);
    assert Digits(head) == run;
  }

  /** A blank text has no digits. */
  lemma {:induction false} DigitsOfBlank(s: string)
    requires IsBlank(s)
    ensures Digits(s) == []
  {
    if s != [] {
      DigitsOfBlank(s[1..]);
    }
  }

  /** An upper-case letter `str.lower` changes: ASCII and the Latin-1 capitals. */
  predicate IsUpper(c: char) {
    || 'A' <= c <= 'Z'
    || ('\U{C0}' <= c <= '\U{DE}' && c != '\U{D7}')
  }

  function LowerChar(c: char): (r: char)
    ensures IsUpper(c) ==> r as int == c as int + 32
    ensures !IsUpper(c) ==> r == c
    ensures !IsUpper(r)
  {
    if IsUpper(c) then (c as int + 32) as char else c
  }

  /** `s.lower()`: each character lower-cased in place, so no capital is left. */
  function Lower(s: string): (r: string)
    ensures |r| == |s|
    ensures forall k :: 0 <= k < |s| ==> r[k] == LowerChar(s[k])
    ensures forall k :: 0 <= k < |r| ==> !IsUpper(r[k])
  {
    seq(|s|, k requires 0 <= k < |s| => LowerChar(s[k]))
  }

  /**
   * Lower-casing twice is lower-casing once: lower-casing an already
   * lower-cased text changes nothing.
   */
  lemma LowerIdempotent(s: string)
    ensures Lower(Lower(s)) == Lower(s)
  {
    LowerOfLowercase(Lower(s));
  }

  /** Lower-casing a text with no capitals leaves it unchanged. */
  lemma LowerOfLowercase(s: string)
    requires forall k :: 0 <= k < |s| ==> !IsUpper(s[k])
    ensures Lower(s) == s
  {
  }

  predicate StartsWith(s: string, prefix: string) {
    |prefix| <= |s| && s[..|prefix|] == prefix
  }

  /** `needle in hay`, by trying each starting position in turn. */
  predicate Contains(hay: string, needle: string)
    ensures needle == [] ==> Contains(hay, needle)
    ensures Contains(hay, needle) ==> |needle| <= |hay|
    decreases |hay|
  {
    StartsWith(hay, needle) || (0 < |hay| && Contains(hay[1..], needle))
  }

  /** `needle` occurs in `hay` starting at position `i`. */
  predicate OccursAt(hay: string, needle: string, i: int) {
    0 <= i && i + |needle| <= |hay| && hay[i..i + |needle|] == needle
  }

  /** The scan finds the needle exactly when it occurs at some position. */
  lemma {:induction false} ContainsIff(hay: string, needle: string)
    ensures Contains(hay, needle) <==> exists i :: OccursAt(hay, needle, i)
    decreases |hay|
  {
    if StartsWith(hay, needle) {
      assert OccursAt(hay, needle, 0);
    } else if |hay| == 0 {
      assert |needle| > 0;
    } else {
      ContainsIff(hay[1..], needle);
      forall i | OccursAt(hay[1..], needle, i) ensures OccursAt(hay, needle, i + 1) {
        assert hay[1..][i..i + |needle|] == hay[i + 1..i + 1 + |needle|];
      }
      forall i | OccursAt(hay, needle, i) ensures OccursAt(hay[1..], needle, i - 1) {
        assert i != 0;
        assert hay[1..][i - 1..i - 1 + |needle|] == hay[i..i + |needle|];
      }
    }
  }
}
