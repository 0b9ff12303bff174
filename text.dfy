/**
 * The string operations the core relies on: `str.lower()`, `str.strip()` and the
 * substring test `needle in hay`, restricted to ASCII (no Unicode case folding).
 */
module Text {

  /** An ASCII upper-case letter. */
  predicate IsUpper(c: char) {
    'A' <= c <= 'Z'
  }

  /** `c.lower()` on ASCII: upper-case letters become lower-case, everything else is kept. */
  function LowerChar(c: char): (r: char)
    ensures !IsUpper(r)
    ensures !IsUpper(c) ==> r == c
  {
    if IsUpper(c) then (c as int + 32) as char else c
  }

  /** `s.lower()`. */
  function Lower(s: string): (r: string)
    ensures |r| == |s|
    ensures forall i | 0 <= i < |s| :: r[i] == LowerChar(s[i])
  {
    if s == [] then [] else [LowerChar(s[0])] + Lower(s[1..])
  }

  /** A needle that matches the lowered start of a string, character by character, is a prefix of the lowered string. */
  lemma LowerPrefix(s: string, needle: string)
    requires |needle| <= |s|
    requires forall i | 0 <= i < |needle| :: LowerChar(s[i]) == needle[i]
    ensures needle <= Lower(s)
  {
  }

  /** A string with no ASCII upper-case letter. */
  predicate IsLowered(s: string) {
    forall i | 0 <= i < |s| :: !IsUpper(s[i])
  }

  lemma LowerIsLowered(s: string)
    ensures IsLowered(Lower(s))
  {
  }

  /** Lowering a string that is already lower-case changes nothing. */
  lemma LowerOfLowered(s: string)
    requires IsLowered(s)
    ensures Lower(s) == s
  {
  }

  /** The characters `str.strip()` removes, within ASCII: space, \t \n \v \f \r and the separators 0x1C-0x1F. */
  predicate IsSpace(c: char) {
    c == ' ' || ('\t' <= c <= '\r') || (28 <= c as int <= 31)
  }

  /** `s.lstrip()`. */
  function TrimStart(s: string): string {
    if s != [] && IsSpace(s[0]) then TrimStart(s[1..]) else s
  }

  /** `s.rstrip()`. */
  function TrimEnd(s: string): string {
    if s != [] && IsSpace(s[|s| - 1]) then TrimEnd(s[..|s| - 1]) else s
  }

  /** `s.strip()`. */
  function Strip(s: string): string {
    TrimEnd(TrimStart(s))
  }

  /** `lstrip` leaves the suffix that starts at the first non-space character. */
  lemma {:induction false} TrimStartShape(s: string)
    ensures |TrimStart(s)| <= |s| && TrimStart(s) == s[|s| - |TrimStart(s)|..]
    ensures TrimStart(s) == [] || !IsSpace(TrimStart(s)[0])
    ensures forall i | 0 <= i < |s| - |TrimStart(s)| :: IsSpace(s[i])
  {
    if s != [] && IsSpace(s[0]) {
      TrimStartShape(s[1..]);
      assert forall i | 1 <= i < |s| :: s[i] == s[1..][i - 1];
    }
  }

  /** `rstrip` leaves the prefix that ends at the last non-space character. */
  lemma {:induction false} TrimEndShape(s: string)
    ensures |TrimEnd(s)| <= |s| && TrimEnd(s) == s[..|TrimEnd(s)|]
    ensures TrimEnd(s) == [] || !IsSpace(TrimEnd(s)[|TrimEnd(s)| - 1])
    ensures forall i | |TrimEnd(s)| <= i < |s| :: IsSpace(s[i])
  {
    if s != [] && IsSpace(s[|s| - 1]) {
      TrimEndShape(s[..|s| - 1]);
    }
  }

  /** `s` is `r` with only white space before it (up to `lo`) and after it. */
  predicate PaddedAt(s: string, lo: int, r: string) {
    0 <= lo <= |s| - |r| && r == s[lo..lo + |r|] &&
    (forall i | 0 <= i < lo :: IsSpace(s[i])) &&
    (forall i | lo + |r| <= i < |s| :: IsSpace(s[i]))
  }

  /** `strip` leaves a piece of `s` that neither starts nor ends with white space, having removed only white space. */
  lemma StripShape(s: string)
    ensures |Strip(s)| <= |s| && IsSubstring(Strip(s), s)
    ensures Strip(s) == [] || (!IsSpace(Strip(s)[0]) && !IsSpace(Strip(s)[|Strip(s)| - 1]))
    ensures exists lo :: PaddedAt(s, lo, Strip(s))
  {
    var t := TrimStart(s);
    TrimStartShape(s);
    TrimEndShape(t);
    var lo := |s| - |t|;
    assert Strip(s) <= s[lo..];
    assert Strip(s) == s[lo..lo + |Strip(s)|];
    assert forall i | lo + |Strip(s)| <= i < |s| :: s[i] == t[i - lo];
    assert PaddedAt(s, lo, Strip(s));
  }

  /** Trimming a string that does not start with white space changes nothing. */
  lemma TrimStartNoop(s: string)
    requires s == [] || !IsSpace(s[0])
    ensures TrimStart(s) == s
  {
  }

  lemma TrimEndNoop(s: string)
    requires s == [] || !IsSpace(s[|s| - 1])
    ensures TrimEnd(s) == s
  {
  }

  /** Stripping twice is stripping once. */
  lemma StripIdempotent(s: string)
    ensures Strip(Strip(s)) == Strip(s)
  {
    var r := Strip(s);
    StripShape(s);
    TrimStartNoop(r);
    TrimEndNoop(r);
  }

  /** Stripping keeps a lower-case string lower-case. */
  lemma StripOfLowered(s: string)
    requires IsLowered(s)
    ensures IsLowered(Strip(s))
  {
    var r := Strip(s);
    StripShape(s);
    var lo :| 0 <= lo <= |s| && r <= s[lo..];
    forall i | 0 <= i < |r| ensures !IsUpper(r[i]) {
      assert r[i] == s[lo..][i];
    }
  }

  /** Python's `needle in hay` for strings: `needle` occurs at some position of `hay`. */
  predicate IsSubstring(needle: string, hay: string) {
    exists i | 0 <= i <= |hay| :: needle <= hay[i..]
  }

  /** A left-to-right scan deciding `needle in hay`. */
  function Contains(hay: string, needle: string): (b: bool)
    ensures b <==> IsSubstring(needle, hay)
  {
    if needle <= hay then
      assert hay[0..] == hay;
      true
    else if hay == [] then
      false
    else
      var b := Contains(hay[1..], needle);
      assert forall i | 1 <= i <= |hay| :: hay[i..] == hay[1..][i - 1..];
      assert IsSubstring(needle, hay[1..]) ==> IsSubstring(needle, hay) by {
        if IsSubstring(needle, hay[1..]) {
          var i :| 0 <= i <= |hay[1..]| && needle <= hay[1..][i..];
          assert hay[i + 1..] == hay[1..][i..];
        }
      }
      b
  }

  /** The empty string occurs in every string (so an empty search query matches everything). */
  lemma EmptyIsSubstring(hay: string)
    ensures IsSubstring([], hay)
  {
    assert [] <= hay[0..];
  }

  /** A needle holding an ASCII upper-case letter never occurs in a lowered string. */
  lemma UpperNeverInLowered(needle: string, hay: string, k: nat)
    requires k < |needle| && IsUpper(needle[k])
    requires IsLowered(hay)
    ensures !IsSubstring(needle, hay)
  {
  }

  /** A needle holding a character that the hay lacks does not occur in it. */
  lemma AbsentCharNotSubstring(needle: string, hay: string, k: nat)
    requires k < |needle|
    requires forall i | 0 <= i < |hay| :: hay[i] != needle[k]
    ensures !IsSubstring(needle, hay)
  {
    forall i | 0 <= i <= |hay|
      ensures !(needle <= hay[i..])
    {
      if i + k < |hay| {
        assert hay[i..][k] == hay[i + k];
      }
    }
  }
}
