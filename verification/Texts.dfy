/** Trimming and lower-casing as the normalizers use them. */
module Texts {
  import opened Options

  /** The characters Python's `str.strip()` removes. */
  predicate IsSpace(c: char) {
    || '\t' <= c <= '\r'
    || '\U{1c}' <= c <= ' '
    || c == '\U{85}' || c == '\U{a0}' || c == '\U{1680}'
    || '\U{2000}' <= c <= '\U{200a}'
    || c == '\U{2028}' || c == '\U{2029}' || c == '\U{202f}' || c == '\U{205f}' || c == '\U{3000}'
  }

  function StripLeft(s: string): string {
    if s != "" && IsSpace(s[0]) then StripLeft(s[1..]) else s
  }

  function StripRight(s: string): string {
    if s != "" && IsSpace(s[|s| - 1]) then StripRight(s[..|s| - 1]) else s
  }

  function Strip(s: string): string {
    StripRight(StripLeft(s))
  }

  /** No space at either end. */
  predicate Trimmed(s: string) {
    s == "" || (!IsSpace(s[0]) && !IsSpace(s[|s| - 1]))
  }

  lemma {:induction false} StripLeftStart(s: string)
    ensures StripLeft(s) == "" || !IsSpace(StripLeft(s)[0])
  {
    if s != "" && IsSpace(s[0]) { StripLeftStart(s[1..]); }
  }

  lemma {:induction false} StripRightTrims(s: string)
    requires s == "" || !IsSpace(s[0])
    ensures Trimmed(StripRight(s))
  {
    if s != "" && IsSpace(s[|s| - 1]) { StripRightTrims(s[..|s| - 1]); }
  }

  /** A stripped string has no space at its ends, and stripping it again changes nothing. */
  lemma StripIdempotent(s: string)
    ensures Trimmed(Strip(s)) && Strip(Strip(s)) == Strip(s)
  {
    StripLeftStart(s);
    StripRightTrims(StripLeft(s));
  }

  predicate AllSpaces(s: string) {
    forall i :: 0 <= i < |s| ==> IsSpace(s[i])
  }

  lemma {:induction false} StripLeftSpaces(a: string, s: string)
    requires AllSpaces(a) && (s == "" || !IsSpace(s[0]))
    ensures StripLeft(a + s) == s
  {
    if a == "" {
      assert a + s == s;
    } else {
      assert (a + s)[1..] == a[1..] + s;
      StripLeftSpaces(a[1..], s);
    }
  }

  lemma {:induction false} StripRightSpaces(s: string, b: string)
    requires AllSpaces(b) && (s == "" || !IsSpace(s[|s| - 1]))
    ensures StripRight(s + b) == s
  {
    if b == "" {
      assert s + b == s;
    } else {
      assert (s + b)[..|s + b| - 1] == s + b[..|b| - 1];
      StripRightSpaces(s, b[..|b| - 1]);
    }
  }

  /** Stripping removes exactly the spaces at both ends. */
  lemma StripMeans(a: string, s: string, b: string)
    requires AllSpaces(a) && AllSpaces(b) && Trimmed(s) && (s == "" ==> b == "")
    ensures Strip(a + s + b) == s
  {
    assert a + s + b == a + (s + b);
    StripLeftSpaces(a, s + b);
    StripRightSpaces(s, b);
  }

  /** The characters that are stripped, by their code points. */
  lemma SpacesAre(c: char)
    ensures IsSpace(c) <==> (c as int) in {0x9, 0xa, 0xb, 0xc, 0xd, 0x1c, 0x1d, 0x1e, 0x1f, 0x20, 0x85, 0xa0, 0x1680,
                                           0x2000, 0x2001, 0x2002, 0x2003, 0x2004, 0x2005, 0x2006, 0x2007, 0x2008,
                                           0x2009, 0x200a, 0x2028, 0x2029, 0x202f, 0x205f, 0x3000}
  {
  }

  /** `str.lower()` as far as it can produce ASCII letters: the ASCII capitals and the
      Kelvin sign. Every other character is left alone, which keeps it different from
      the ASCII words the result is compared with. */
  function LowerChar(c: char): char {
    if 'A' <= c <= 'Z' then c - 'A' + 'a' else if c == '\U{212a}' then 'k' else c
  }

  function Lower(s: string): string {
    seq(|s|, i requires 0 <= i < |s| => LowerChar(s[i]))
  }

  /** `normalize_optional_string` on a string: trimmed, or nothing. */
  function TrimOrNone(s: string): Option<string> {
    if Strip(s) == "" then None else Some(Strip(s))
  }
}
