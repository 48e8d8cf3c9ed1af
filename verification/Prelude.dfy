/** Small vocabulary shared by the other modules. */
module Prelude {

  datatype Option<+T> = None | Some(value: T)

  datatype Result<+T, +E> = Ok(value: T) | Err(error: E)

  function Min(a: int, b: int): int {
    if a <= b then a else b
  }

  /**
   How many bytes of white space a UTF-8 text starts with: one character's, or none. The characters are those of
   Unicode's White_Space property.
   */
  function SpaceAhead(s: string): (n: nat)
    ensures n <= |s|
  {
    if s != "" && (s[0] == ' ' || '\t' <= s[0] <= '\r') then 1
    else if |s| >= 2 && s[0] == '\U{00C2}' && s[1] in {'\U{0085}', '\U{00A0}'} then 2
    else if |s| >= 3 && IsWideSpace(s[0], s[1], s[2]) then 3
    else 0
  }

  /** U+1680, U+2000 to U+200A, U+2028, U+2029, U+202F, U+205F and U+3000. */
  predicate IsWideSpace(a: char, b: char, c: char) {
    || (a == '\U{00E1}' && b == '\U{009A}' && c == '\U{0080}')
    || (a == '\U{00E2}' && b == '\U{0080}'
        && ('\U{0080}' <= c <= '\U{008A}' || c in {'\U{00A8}', '\U{00A9}', '\U{00AF}'}))
    || (a == '\U{00E2}' && b == '\U{0081}' && c == '\U{009F}')
    || (a == '\U{00E3}' && b == '\U{0080}' && c == '\U{0080}')
  }

  /** Nothing left after trimming white space. */
  predicate Blank(s: string) {
    s == "" || (SpaceAhead(s) > 0 && Blank(s[SpaceAhead(s)..]))
  }

  // --- the same in code points ---

  predicate White(cp: nat) {
    || 9 <= cp <= 13 || cp == 32 || cp == 0x85 || cp == 0xA0 || cp == 0x1680 || 0x2000 <= cp <= 0x200A
    || cp == 0x2028 || cp == 0x2029 || cp == 0x202F || cp == 0x205F || cp == 0x3000
  }

  /** The UTF-8 form of a code point below 65536, byte by byte (section 3 of RFC 3629). */
  function Utf8(cp: nat): seq<int> {
    if cp < 0x80 then [cp]
    else if cp < 0x800 then [0xC0 + cp / 64, 0x80 + cp % 64]
    else [0xE0 + cp / 4096, 0x80 + cp / 64 % 64, 0x80 + cp % 64]
  }

  predicate StartsWith(s: string, bytes: seq<int>) {
    |bytes| <= |s| && forall i :: 0 <= i < |bytes| ==> s[i] as int == bytes[i]
  }

  lemma WhiteForms(cp: nat)
    requires White(cp)
    ensures Utf8(cp) == (
      if cp < 0x80 then [cp] else if cp < 0x800 then [0xC2, cp]
      else if cp == 0x1680 then [0xE1, 0x9A, 0x80] else if cp == 0x3000 then [0xE3, 0x80, 0x80]
      else if cp == 0x205F then [0xE2, 0x81, 0x9F] else [0xE2, 0x80, cp - 0x2000 + 0x80])
  {
  }

  /** What is counted as white space ahead is the UTF-8 form of a white code point, and every such form is counted. */
  lemma SpaceAheadIff(s: string, cp: nat)
    requires White(cp)
    ensures StartsWith(s, Utf8(cp)) ==> SpaceAhead(s) == |Utf8(cp)|
  {
    WhiteForms(cp);
  }

  lemma SpaceAheadIsWhite(s: string) returns (cp: nat)
    requires SpaceAhead(s) > 0
    ensures White(cp) && StartsWith(s, Utf8(cp)) && |Utf8(cp)| == SpaceAhead(s)
  {
    cp :=
      if SpaceAhead(s) == 1 then s[0] as int
      else if SpaceAhead(s) == 2 then s[1] as int
      else if s[0] == '\U{00E1}' then 0x1680
      else if s[0] == '\U{00E3}' then 0x3000
      else if s[1] == '\U{0081}' then 0x205F
      else s[2] as int - 0x80 + 0x2000;
    WhiteForms(cp);
  }

  function AllUtf8(cps: seq<nat>): seq<int> {
    if cps == [] then [] else Utf8(cps[0]) + AllUtf8(cps[1..])
  }

  /** A text is blank exactly if it is the UTF-8 form of white code points and nothing else. */
  lemma {:induction false} BlankSpells(s: string) returns (cps: seq<nat>)
    requires Blank(s)
    ensures (forall i :: 0 <= i < |cps| ==> White(cps[i])) && |AllUtf8(cps)| == |s| && StartsWith(s, AllUtf8(cps))
    decreases |s|
  {
    cps := [];
    if s != "" {
      var cp := SpaceAheadIsWhite(s);
      var n := SpaceAhead(s);
      var rest := BlankSpells(s[n..]);
      cps := [cp] + rest;
      assert cps[1..] == rest;
      forall i | 0 <= i < |s| ensures s[i] as int == AllUtf8(cps)[i] {
        assert i >= n ==> s[i] == s[n..][i - n];
      }
    }
  }

  lemma {:induction false} WhiteIsBlank(s: string, cps: seq<nat>)
    requires (forall i :: 0 <= i < |cps| ==> White(cps[i])) && |AllUtf8(cps)| == |s| && StartsWith(s, AllUtf8(cps))
    ensures Blank(s)
    decreases |cps|
  {
    if cps != [] {
      var first := Utf8(cps[0]);
      var n := |first|;
      forall i | 0 <= i < n ensures s[i] as int == first[i] {
        assert AllUtf8(cps)[i] == first[i];
      }
      SpaceAheadIff(s, cps[0]);
      var rest := s[n..];
      forall i | 0 <= i < |rest| ensures rest[i] as int == AllUtf8(cps[1..])[i] {
        assert AllUtf8(cps)[n + i] == AllUtf8(cps[1..])[i];
      }
      WhiteIsBlank(rest, cps[1..]);
    }
  }

  function Reverse<T>(s: seq<T>): (r: seq<T>)
    ensures |r| == |s|
  {
    if s == [] then [] else Reverse(s[1..]) + [s[0]]
  }

  lemma {:induction false} ReverseAt<T>(s: seq<T>, k: nat)
    requires k < |s|
    ensures Reverse(s)[k] == s[|s| - 1 - k]
  {
    if k < |s| - 1 {
      ReverseAt(s[1..], k);
    }
  }
}
