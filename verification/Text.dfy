/** Trimming, as the program's string type does it, and the alphabet of codes. */
module Text {
  predicate Whitespace(c: char) {
    || '\t' <= c <= '\r' || c == ' ' || c == '\U{85}' || c == '\U{A0}' || c == '\U{1680}'
    || '\U{2000}' <= c <= '\U{200A}' || c == '\U{2028}' || c == '\U{2029}' || c == '\U{202F}'
    || c == '\U{205F}' || c == '\U{3000}'
  }

  function Trim(s: string): string {
    if s != [] && Whitespace(s[0]) then Trim(s[1..])
    else if s != [] && Whitespace(s[|s| - 1]) then Trim(s[..|s| - 1])
    else s
  }

  /** The code points of the Unicode property White_Space. */
  lemma WhitespaceIs(c: char)
    ensures Whitespace(c) <==>
            c as int in {9, 10, 11, 12, 13, 32, 0x85, 0xA0, 0x1680, 0x2000, 0x2001, 0x2002, 0x2003, 0x2004, 0x2005,
                         0x2006, 0x2007, 0x2008, 0x2009, 0x200A, 0x2028, 0x2029, 0x202F, 0x205F, 0x3000}
  {
  }

  /** Trimming cuts off exactly the whitespace at both ends. */
  lemma {:induction false} TrimMeans(s: string) returns (from: nat, to: nat)
    ensures from <= to <= |s| && Trim(s) == s[from..to]
    ensures forall i :: 0 <= i < from || to <= i < |s| ==> Whitespace(s[i])
    ensures from < to ==> !Whitespace(s[from]) && !Whitespace(s[to - 1])
    decreases |s|
  {
    if s != [] && Whitespace(s[0]) {
      var f, t := TrimMeans(s[1..]);
      from, to := f + 1, t + 1;
    } else if s != [] && Whitespace(s[|s| - 1]) {
      from, to := TrimMeans(s[..|s| - 1]);
    } else {
      from, to := 0, |s|;
    }
  }

  // ---------------------------------------------------------------------------
  // the alphabet of codes
  // ---------------------------------------------------------------------------

  const LETTERS := "abcdefghijklmnopqrstuvwxyz"
  const DIGITS := "0123456789"

  lemma Alphabet()
    ensures forall c: char :: c in LETTERS <==> 'a' <= c <= 'z'
    ensures forall c: char :: c in DIGITS <==> '0' <= c <= '9'
  {
    forall c: char ensures c in LETTERS <==> 'a' <= c <= 'z' {
      assert 'a' <= c <= 'z' ==> LETTERS[c as int - 97] == c;
    }
    forall c: char ensures c in DIGITS <==> '0' <= c <= '9' {
      assert '0' <= c <= '9' ==> DIGITS[c as int - 48] == c;
    }
  }
}
