/** The numbers of a record: integers as 64-bit values, floating-point numbers without
    their fraction, and decimal text, which `std::stoll` reads back. */
module Numerals {
  import opened Json
  import opened Options

  predicate Int64(n: int)
  {
    -0x8000_0000_0000_0000 <= n < 0x8000_0000_0000_0000
  }

  /** Conversion to `int64_t` is the value itself where it fits, and wraps around. */
  lemma AsInt64Wraps(n: int)
    ensures Int64(AsInt64(n)) && (n - AsInt64(n)) % 0x1_0000_0000_0000_0000 == 0
    ensures Int64(n) ==> AsInt64(n) == n
  {
    var m := n + TWO_63;
    assert m == (m / TWO_64) * TWO_64 + m % TWO_64;
    assert n - AsInt64(n) == (m / TWO_64) * TWO_64;
  }

  /** A floating-point number in range is rounded towards zero. */
  lemma FloatTruncates(r: real, text: string)
    requires -9_000_000_000_000_000_000.0 < r < 9_000_000_000_000_000_000.0
    ensures var n := NumberAsInt64(Float(r, text));
            if 0.0 <= r then n as real <= r < (n + 1) as real else (n - 1) as real < r <= n as real
  {
    AsInt64Wraps(if r < 0.0 then -(-r).Floor else r.Floor);
  }

  predicate AllDigits(s: string)
  {
    forall i :: 0 <= i < |s| ==> IsDigit(s[i])
  }

  lemma {:induction false} DecimalDigits(n: nat)
    ensures Decimal(n) != "" && AllDigits(Decimal(n))
  {
    if 10 <= n {
      DecimalDigits(n / 10);
    }
  }

  /** Reading digits stops at the first character that is none. */
  lemma {:induction false} DigitsSnoc(s: string, c: char, rest: string, acc: int)
    requires AllDigits(s) && IsDigit(c) && (rest == "" || !IsDigit(rest[0]))
    ensures Digits(s + [c] + rest, acc) == 10 * Digits(s, acc) + (c as int - '0' as int)
  {
    if s == "" {
      assert s + [c] + rest == [c] + rest;
      assert ([c] + rest)[1..] == rest;
    } else {
      assert (s + [c] + rest)[1..] == s[1..] + [c] + rest;
      DigitsSnoc(s[1..], c, rest, 10 * acc + (s[0] as int - '0' as int));
    }
  }

  lemma {:induction false} DigitsOfDecimal(n: nat, rest: string)
    requires rest == "" || !IsDigit(rest[0])
    ensures Digits(Decimal(n) + rest, 0) == n
  {
    if n < 10 {
      assert Decimal(n) + rest == "" + [DigitChar(n)] + rest;
      DigitsSnoc("", DigitChar(n), rest, 0);
    } else {
      DecimalDigits(n / 10);
      DigitsOfDecimal(n / 10, "");
      assert Decimal(n / 10) + "" == Decimal(n / 10);
      DigitsSnoc(Decimal(n / 10), DigitChar(n % 10), rest, 0);
    }
  }

  /** Space in the C locale: blanks and the characters from tab to carriage return. */
  predicate Blank(s: string)
  {
    forall i :: 0 <= i < |s| ==> s[i] == ' ' || '\t' <= s[i] <= '\r'
  }

  lemma {:induction false} SkipsSpace(space: string, text: string)
    requires Blank(space) && text != "" && !IsSpace(text[0])
    ensures SkipSpace(space + text) == text
  {
    if space == "" {
      assert space + text == text;
    } else {
      assert (space + text)[1..] == space[1..] + text;
      SkipsSpace(space[1..], text);
    }
  }

  /** `stoll` takes a sign or none before the digits, whatever space before that, and
      ignores what comes after them. */
  lemma SignedReads(space: string, sign: string, n: nat, rest: string)
    requires Blank(space) && (sign == "" || sign == "+" || sign == "-")
    requires rest == "" || !IsDigit(rest[0])
    ensures var v: int := if sign == "-" then 0 - n else n;
            Stoll(space + (sign + (Decimal(n) + rest))) == if Int64(v) then Some(v) else None
  {
    DecimalDigits(n);
    DigitsOfDecimal(n, rest);
    var digits := Decimal(n) + rest;
    assert digits[0] == Decimal(n)[0] && IsDigit(digits[0]);
    SkipsSpace(space, sign + digits);
    assert if sign == "" then sign + digits == digits else (sign + digits)[1..] == digits;
  }

  lemma Regroup(a: string, b: string, c: string)
    ensures (a + b) + c == a + (b + c)
  {
  }

  /** It reads back the decimal text of every 64-bit integer, and refuses the others'. */
  lemma StollReads(space: string, n: int, rest: string)
    requires Blank(space)
    requires rest == "" || !IsDigit(rest[0])
    ensures Stoll(space + (Decimal(n) + rest)) == if Int64(n) then Some(n) else None
  {
    if n < 0 {
      SignedReads(space, "-", -n, rest);
      Regroup("-", Decimal(-n), rest);
    } else {
      SignedReads(space, "", n, rest);
      Regroup("", Decimal(n), rest);
      assert "" + Decimal(n) == Decimal(n);
    }
  }

  /** It refuses text in which no number starts after the space. */
  lemma StollRefuses(space: string, text: string)
    requires Blank(space)
    requires text != "" && !Blank(text[..1]) && !IsDigit(text[0]) && text[0] != '-' && text[0] != '+'
    ensures Stoll(space + text) == None && Stoll("") == None
  {
    SkipsSpace(space, text);
  }
}
