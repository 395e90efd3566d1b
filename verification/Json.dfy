/** JSON documents as the consumers see them: `nlohmann::json` values, with
    objects listed in key order (the order of the underlying `std::map`), and
    floating-point numbers carrying the text that `dump` gives them. */
module Json {
  import opened Options

  datatype Json =
    | Null
    | Bool(b: bool)
    | Num(n: int)
    | Float(r: real, text: string)
    | Str(s: string)
    | Arr(items: seq<Json>)
    | Obj(members: seq<Member>)

  datatype Member = Member(name: string, value: Json)

  function Find(members: seq<Member>, name: string): Option<Json>
  {
    if members == [] then None
    else if members[0].name == name then Some(members[0].value)
    else Find(members[1..], name)
  }

  /** `j.contains(name)`: false for every value that is not an object. */
  predicate Contains(j: Json, name: string)
  {
    j.Obj? && Find(j.members, name).Some?
  }

  /** `j[name]` where `j.contains(name)`. */
  function Get(j: Json, name: string): Json
    requires Contains(j, name)
  {
    Find(j.members, name).value
  }

  /** `j.contains(name) && !j[name].is_null()` */
  predicate Has(j: Json, name: string)
  {
    Contains(j, name) && !Get(j, name).Null?
  }

  // ---- text -------------------------------------------------------------

  function Decimal(n: int): string
    decreases n < 0, if n < 0 then -n else n
  {
    if n < 0 then "-" + Decimal(-n)
    else if n < 10 then [DigitChar(n)]
    else Decimal(n / 10) + [DigitChar(n % 10)]
  }

  function DigitChar(d: int): char
    requires 0 <= d < 16
  {
    if d < 10 then ('0' as int + d) as char else ('a' as int + d - 10) as char
  }

  function Escape(c: char): string
  {
    if c == '\"' then "\\\""
    else if c == '\\' then "\\\\"
    else if c == '\n' then "\\n"
    else if c == '\r' then "\\r"
    else if c == '\t' then "\\t"
    else if c as int == 8 then "\\b"
    else if c as int == 12 then "\\f"
    else if (c as int) < 32 then "\\u00" + [DigitChar(c as int / 16), DigitChar(c as int % 16)]
    else [c]
  }

  function Quote(s: string): string
  {
    "\"" + QuoteBody(s) + "\""
  }

  function QuoteBody(s: string): string
  {
    if s == "" then "" else Escape(s[0]) + QuoteBody(s[1..])
  }

  /** `j.dump()`: compact text. */
  function Dump(j: Json): string
  {
    match j
    case Null => "null"
    case Bool(b) => if b then "true" else "false"
    case Num(n) => Decimal(n)
    case Float(_, text) => text
    case Str(s) => Quote(s)
    case Arr(items) => "[" + DumpItems(items) + "]"
    case Obj(members) => "{" + DumpMembers(members) + "}"
  }

  function DumpItems(items: seq<Json>): string
  {
    if items == [] then ""
    else Dump(items[0]) + (if |items| == 1 then "" else ",") + DumpItems(items[1..])
  }

  function DumpMembers(members: seq<Member>): string
  {
    if members == [] then ""
    else
      Quote(members[0].name) + ":" + Dump(members[0].value)
      + (if |members| == 1 then "" else ",") + DumpMembers(members[1..])
  }

  /** `j.is_string() ? j.get<std::string>() : j.dump()` */
  function Text(j: Json): string
  {
    if j.Str? then j.s else Dump(j)
  }

  // ---- 64-bit integers --------------------------------------------------

  const TWO_63 := 0x8000_0000_0000_0000
  const TWO_64 := 0x1_0000_0000_0000_0000

  /** An integer, signed or unsigned, as `int64_t`. */
  function AsInt64(n: int): int
  {
    (n + TWO_63) % TWO_64 - TWO_63
  }

  /** `j.is_number()` */
  predicate IsNumber(j: Json)
  {
    j.Num? || j.Float?
  }

  /** `j.get<int64_t>()`: floating-point numbers lose their fraction. */
  function NumberAsInt64(j: Json): int
    requires IsNumber(j)
  {
    if j.Num? then AsInt64(j.n) else AsInt64(if j.r < 0.0 then -(-j.r).Floor else j.r.Floor)
  }

  predicate IsSpace(c: char)
  {
    c == ' ' || 9 <= c as int <= 13
  }

  predicate IsDigit(c: char)
  {
    '0' <= c <= '9'
  }

  function SkipSpace(s: string): string
  {
    if s != "" && IsSpace(s[0]) then SkipSpace(s[1..]) else s
  }

  function Digits(s: string, acc: int): int
  {
    if s != "" && IsDigit(s[0]) then Digits(s[1..], 10 * acc + (s[0] as int - '0' as int)) else acc
  }

  /** `std::stoll`: leading space, a sign, at least one digit, anything after
      the digits ignored; None where it throws. */
  function Stoll(s: string): Option<int>
  {
    var t := SkipSpace(s);
    var negative := t != "" && t[0] == '-';
    var u := if t != "" && (t[0] == '-' || t[0] == '+') then t[1..] else t;
    if u == "" || !IsDigit(u[0]) then None
    else
      var v := if negative then -Digits(u, 0) else Digits(u, 0);
      if -TWO_63 <= v < TWO_63 then Some(v) else None
  }
}
