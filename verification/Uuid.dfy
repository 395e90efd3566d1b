/** `generate_uuid`: the ids that the keyspace separation rests on. */
module Uuid {
  import opened Json
  import opened RedisStore

  predicate Nibbles(draws: seq<int>)
  {
    forall i :: 0 <= i < |draws| ==> 0 <= draws[i] < 16
  }

  function Hex(draws: seq<int>): (s: string)
    requires Nibbles(draws)
    ensures |s| == |draws| && forall i :: 0 <= i < |s| ==> s[i] == DigitChar(draws[i])
  {
    seq(|draws|, i requires 0 <= i < |draws| => DigitChar(draws[i]))
  }

  predicate HexDigit(c: char)
  {
    '0' <= c <= '9' || 'a' <= c <= 'f'
  }

  predicate Hyphen(i: int)
  {
    i == 8 || i == 13 || i == 18 || i == 23
  }

  /** The textual form of a UUID that section 3 of RFC 4122 prescribes for output,
      and PostgreSQL prints: hyphens after 8, 12, 16 and 20 lower-case digits. */
  predicate Canonical(s: string)
  {
    |s| == 36 && forall i :: 0 <= i < 36 ==> if Hyphen(i) then s[i] == '-' else HexDigit(s[i])
  }

  /** The layout of a random UUID, section 4.4 of RFC 4122: version 4, and a variant
      digit of 8, 9, a or b. */
  predicate Version4(s: string)
  {
    && Canonical(s)
    && s[14] == '4' && (s[19] == '8' || s[19] == '9' || s[19] == 'a' || s[19] == 'b')
  }

  lemma CanonicalIsColonFree(s: string)
    requires Canonical(s)
    ensures ColonFree(s)
  {
    forall i | 0 <= i < 36
      ensures s[i] != ':'
    {
      assert Hyphen(i) || HexDigit(s[i]);
    }
  }

  /** for (...; i < n; ...) ss << dis(gen) */
  method AppendHex(ss: string, draws: seq<int>, from: nat, n: nat) returns (out: string)
    requires Nibbles(draws) && from + n <= |draws|
    ensures out == ss + Hex(draws)[from..from + n]
  {
    out := ss;
    for i := 0 to n
      invariant out == ss + Hex(draws)[from..from + i]
    {
      out := out + [DigitChar(draws[from + i])];
    }
  }

  function Layout(draws: seq<int>, variant: int): string
    requires Nibbles(draws) && |draws| == 30 && 8 <= variant <= 11
  {
    var h := Hex(draws);
    h[0..8] + "-" + h[8..12] + "-4" + h[12..15] + "-" + [DigitChar(variant)] + h[15..18] + "-" + h[18..30]
  }

  /** Which draw ends up at which place of the text. */
  function Source(i: int): int
  {
    if i < 8 then i else if i < 13 then i - 1 else if i < 18 then i - 3 else if i < 23 then i - 5 else i - 6
  }

  lemma LayoutAt(draws: seq<int>, variant: int, i: int)
    requires Nibbles(draws) && |draws| == 30 && 8 <= variant <= 11 && 0 <= i < 36
    ensures |Layout(draws, variant)| == 36
    ensures Layout(draws, variant)[i]
         == if i == 8 || i == 13 || i == 18 || i == 23 then '-'
            else if i == 14 then '4'
            else if i == 19 then DigitChar(variant)
            else Hex(draws)[Source(i)]
  {
    var h := Hex(draws);
    var s1 := h[0..8] + "-" + h[8..12];
    var s2 := s1 + "-4" + h[12..15] + "-";
    var s3 := s2 + [DigitChar(variant)] + h[15..18] + "-";
    assert |s1| == 13 && |s2| == 19 && |s3| == 24;
    assert Layout(draws, variant) == s3 + h[18..30];
    if i < 13 {
      assert Layout(draws, variant)[i] == s1[i];
    } else if i < 19 {
      assert Layout(draws, variant)[i] == s2[i];
    } else if i < 24 {
      assert Layout(draws, variant)[i] == s3[i];
    }
  }

  lemma LayoutIsVersion4(draws: seq<int>, variant: int)
    requires Nibbles(draws) && |draws| == 30 && 8 <= variant <= 11
    ensures Version4(Layout(draws, variant))
  {
    forall i | 0 <= i < 36
      ensures |Layout(draws, variant)| == 36
      ensures if Hyphen(i) then Layout(draws, variant)[i] == '-' else HexDigit(Layout(draws, variant)[i])
    {
      LayoutAt(draws, variant, i);
    }
    LayoutAt(draws, variant, 14);
    LayoutAt(draws, variant, 19);
  }

  /** draws are the values `dis` yields, variant the one of `dis2`. */
  method GenerateUuid(draws: seq<int>, variant: int) returns (id: string)
    requires Nibbles(draws) && |draws| == 30 && 8 <= variant <= 11
    ensures Version4(id) && ColonFree(id)
    ensures id == Layout(draws, variant)
  {
    id := AppendHex("", draws, 0, 8);
    assert id == Hex(draws)[0..8];
    id := id + "-";
    id := AppendHex(id, draws, 8, 4);
    id := id + "-4";
    id := AppendHex(id, draws, 12, 3);
    id := id + "-";
    id := id + [DigitChar(variant)];
    id := AppendHex(id, draws, 15, 3);
    id := id + "-";
    id := AppendHex(id, draws, 18, 12);
    assert id == Layout(draws, variant);
    LayoutIsVersion4(draws, variant);
    CanonicalIsColonFree(id);
  }

  function DigitValue(c: char): (d: int)
    requires HexDigit(c)
    ensures 0 <= d < 16 && DigitChar(d) == c
  {
    if '0' <= c <= '9' then c as int - '0' as int else c as int - 'a' as int + 10
  }

  /** The place in the text that a draw ends up at. */
  function Place(k: int): (i: int)
    requires 0 <= k < 30
    ensures 0 <= i < 36 && Source(i) == k && i != 14 && i != 19 && !Hyphen(i)
  {
    if k < 8 then k else if k < 12 then k + 1 else if k < 15 then k + 3 else if k < 18 then k + 5 else k + 6
  }

  /** Every version-4 text is drawn: the texts generated are exactly those. */
  lemma LayoutOnto(s: string) returns (draws: seq<int>, variant: int)
    requires Version4(s)
    ensures Nibbles(draws) && |draws| == 30 && 8 <= variant <= 11 && Layout(draws, variant) == s
  {
    assert HexDigit(s[19]);
    variant := DigitValue(s[19]);
    draws := seq(30, k requires 0 <= k < 30 => if HexDigit(s[Place(k)]) then DigitValue(s[Place(k)]) else 0);
    forall i | 0 <= i < 36
      ensures |Layout(draws, variant)| == 36 && Layout(draws, variant)[i] == s[i]
    {
      LayoutAt(draws, variant, i);
      if !Hyphen(i) && i != 14 && i != 19 {
        assert HexDigit(s[i]) && Place(Source(i)) == i;
      }
    }
  }

  /** No randomness is lost: equal ids come from equal draws only. */
  lemma LayoutInjective(d: seq<int>, v: int, e: seq<int>, w: int)
    requires Nibbles(d) && |d| == 30 && 8 <= v <= 11
    requires Nibbles(e) && |e| == 30 && 8 <= w <= 11
    requires Layout(d, v) == Layout(e, w)
    ensures d == e && v == w
  {
    LayoutAt(d, v, 19);
    LayoutAt(e, w, 19);
    forall k | 0 <= k < 30
      ensures d[k] == e[k]
    {
      LayoutAt(d, v, Place(k));
      LayoutAt(e, w, Place(k));
    }
  }
}
