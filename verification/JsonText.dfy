/** What `dump` writes, `parse` reads back: the documents that the updater stores as text
    are the documents that a GET reads. The reader is for compact text, without the
    space that `dump` does not write. */
module JsonText {
  import opened Json
  import opened Options
  import opened Numerals

  type Read<T> = Option<(T, string)>

  // ---- strings ----------------------------------------------------------------

  function HexValue(c: char): int
  {
    if '0' <= c <= '9' then c as int - '0' as int
    else if 'a' <= c <= 'f' then c as int - 'a' as int + 10
    else if 'A' <= c <= 'F' then c as int - 'A' as int + 10
    else -1
  }

  /** One character of a string, escaped or not: section 7 of RFC 8259. */
  function ReadChar(t: string): (r: Read<char>)
    ensures r.Some? ==> |r.value.1| < |t|
  {
    if t == "" || t[0] == '\"' || (t[0] as int) < 32 then None
    else if t[0] != '\\' then Some((t[0], t[1..]))
    else if |t| < 2 then None
    else
      match t[1]
      case '\"' => Some(('\"', t[2..]))
      case '\\' => Some(('\\', t[2..]))
      case '/' => Some(('/', t[2..]))
      case 'b' => Some((8 as char, t[2..]))
      case 'f' => Some((12 as char, t[2..]))
      case 'n' => Some(('\n', t[2..]))
      case 'r' => Some(('\r', t[2..]))
      case 't' => Some(('\t', t[2..]))
      case 'u' =>
        if |t| < 6 || exists i :: 2 <= i < 6 && HexValue(t[i]) < 0 then None
        else
          var code := 4096 * HexValue(t[2]) + 256 * HexValue(t[3]) + 16 * HexValue(t[4]) + HexValue(t[5]);
          if 0xD800 <= code <= 0xDFFF then None else Some((code as char, t[6..]))
      case _ => None
  }

  /** The rest of a string, up to and past its closing quote. */
  function ReadString(t: string): (r: Read<string>)
    ensures r.Some? ==> |r.value.1| < |t|
    decreases |t|
  {
    if t != "" && t[0] == '\"' then Some(("", t[1..]))
    else
      var first := ReadChar(t);
      if first.None? then None
      else
        var more := ReadString(first.value.1);
        if more.None? then None else Some(([first.value.0] + more.value.0, more.value.1))
  }

  lemma EscapeReads(c: char, rest: string)
    ensures Escape(c)[0] != '\"' && ReadChar(Escape(c) + rest) == Some((c, rest))
  {
    var t := Escape(c) + rest;
    assert t[|Escape(c)|..] == rest;
    assert forall i :: 0 <= i < |Escape(c)| ==> t[i] == Escape(c)[i];
    if Escape(c)[0] == '\\' && Escape(c)[1] == 'u' {
      assert c as int == 16 * (c as int / 16) + c as int % 16;
      HexDigits(c as int / 16);
      HexDigits(c as int % 16);
      assert HexValue(t[2]) == 0 && HexValue(t[3]) == 0;
    }
  }

  lemma HexDigits(d: int)
    requires 0 <= d < 16
    ensures HexValue(DigitChar(d)) == d
  {
  }

  lemma ReadsOn(t: string, c: char, tail: string, s: string, rest: string)
    requires t != "" && t[0] != '\"' && ReadChar(t) == Some((c, tail)) && ReadString(tail) == Some((s, rest))
    ensures ReadString(t) == Some(([c] + s, rest))
  {
  }

  lemma {:induction false} QuoteReads(s: string, rest: string)
    ensures ReadString(QuoteBody(s) + ("\"" + rest)) == Some((s, rest))
  {
    if s == "" {
      assert QuoteBody(s) + ("\"" + rest) == "\"" + rest;
    } else {
      var tail := QuoteBody(s[1..]) + ("\"" + rest);
      Regroup(Escape(s[0]), QuoteBody(s[1..]), "\"" + rest);
      EscapeReads(s[0], tail);
      QuoteReads(s[1..], rest);
      ReadsOn(Escape(s[0]) + tail, s[0], tail, s[1..], rest);
      assert s == [s[0]] + s[1..];
    }
  }

  // ---- numbers ----------------------------------------------------------------

  predicate NumberChar(c: char)
  {
    IsDigit(c) || c == '-' || c == '+' || c == '.' || c == 'e' || c == 'E'
  }

  /** How many characters at the front may belong to a number. */
  function TokenLength(t: string): (n: nat)
    ensures n <= |t| && forall i :: 0 <= i < n ==> NumberChar(t[i])
    ensures n < |t| ==> !NumberChar(t[n])
  {
    if t != "" && NumberChar(t[0]) then 1 + TokenLength(t[1..]) else 0
  }

  /** A minus sign or none, and digits, of which the first is no zero unless it is the
      only one: section 6 of RFC 8259, without fraction and exponent. */
  predicate IntegerText(t: string)
  {
    var digits := if t != "" && t[0] == '-' then t[1..] else t;
    && digits != "" && (forall i :: 0 <= i < |digits| ==> IsDigit(digits[i]))
    && (digits[0] == '0' ==> |digits| == 1)
  }

  /** How text with a fraction or an exponent is read as a floating-point number. */
  type Strtod = string -> Option<real>

  function ReadNumber(strtod: Strtod, t: string): (r: Read<Json>)
    ensures r.Some? ==> |r.value.1| < |t|
  {
    var n := TokenLength(t);
    var token := t[..n];
    if n == 0 then None
    else if IntegerText(token) then
      Some((Num(if token[0] == '-' then 0 - Digits(token[1..], 0) else Digits(token, 0)), t[n..]))
    else if strtod(token).Some? then Some((Float(strtod(token).value, token), t[n..]))
    else None
  }

  // ---- values -----------------------------------------------------------------

  predicate Begins(t: string, word: string)
  {
    |word| <= |t| && t[..|word|] == word
  }

  function ReadValue(strtod: Strtod, t: string): (r: Read<Json>)
    ensures r.Some? ==> |r.value.1| < |t|
    decreases |t|, 0
  {
    if t == "" then None
    else
      match t[0]
      case 'n' => if Begins(t, "null") then Some((Null, t[4..])) else None
      case 't' => if Begins(t, "true") then Some((Bool(true), t[4..])) else None
      case 'f' => if Begins(t, "false") then Some((Bool(false), t[5..])) else None
      case '\"' =>
        var s := ReadString(t[1..]);
        if s.None? then None else Some((Str(s.value.0), s.value.1))
      case '[' =>
        if Begins(t, "[]") then Some((Arr([]), t[2..]))
        else
          var items := ReadItems(strtod, t[1..]);
          if items.None? then None else Some((Arr(items.value.0), items.value.1))
      case '{' =>
        if Begins(t, "{}") then Some((Obj([]), t[2..]))
        else
          var members := ReadMembers(strtod, t[1..]);
          if members.None? then None else Some((Obj(members.value.0), members.value.1))
      case _ => ReadNumber(strtod, t)
  }

  /** The items of an array, up to and past its bracket. */
  function ReadItems(strtod: Strtod, t: string): (r: Read<seq<Json>>)
    ensures r.Some? ==> |r.value.1| < |t|
    decreases |t|, 1
  {
    var item := ReadValue(strtod, t);
    if item.None? then None
    else
      var (first, more) := item.value;
      if Begins(more, "]") then Some(([first], more[1..]))
      else if Begins(more, ",") then
        var rest := ReadItems(strtod, more[1..]);
        if rest.None? then None else Some(([first] + rest.value.0, rest.value.1))
      else None
  }

  /** The members of an object, up to and past its brace. */
  function ReadMembers(strtod: Strtod, t: string): (r: Read<seq<Member>>)
    ensures r.Some? ==> |r.value.1| < |t|
    decreases |t|, 1
  {
    if !Begins(t, "\"") then None
    else
      var name := ReadString(t[1..]);
      if name.None? || !Begins(name.value.1, ":") then None
      else
        var value := ReadValue(strtod, name.value.1[1..]);
        if value.None? then None
        else
          var (first, more) := (Member(name.value.0, value.value.0), value.value.1);
          if Begins(more, "}") then Some(([first], more[1..]))
          else if Begins(more, ",") then
            var rest := ReadMembers(strtod, more[1..]);
            if rest.None? then None else Some(([first] + rest.value.0, rest.value.1))
          else None
  }

  /** `parse`: one value and nothing after it. */
  function Parse(strtod: Strtod, t: string): Option<Json>
  {
    var value := ReadValue(strtod, t);
    if value.Some? && value.value.1 == "" then Some(value.value.0) else None
  }

  // ---- round trip ----------------------------------------------------------------

  /** Floating-point numbers carry text that reads back as they are: not an integer's. */
  predicate Dumpable(strtod: Strtod, j: Json)
  {
    match j
    case Float(r, text) =>
      && text != "" && (forall i :: 0 <= i < |text| ==> NumberChar(text[i]))
      && !IntegerText(text) && strtod(text) == Some(r)
    case Arr(items) => forall i :: 0 <= i < |items| ==> Dumpable(strtod, items[i])
    case Obj(members) => forall i :: 0 <= i < |members| ==> Dumpable(strtod, members[i].value)
    case _ => true
  }

  /** What follows cannot be taken for more of a number. */
  predicate Ends(rest: string)
  {
    rest == "" || !NumberChar(rest[0])
  }

  lemma {:induction false} TokenEnds(token: string, rest: string)
    requires (forall i :: 0 <= i < |token| ==> NumberChar(token[i])) && Ends(rest)
    ensures TokenLength(token + rest) == |token|
  {
    if token == "" {
      assert token + rest == rest;
    } else {
      assert (token + rest)[1..] == token[1..] + rest;
      TokenEnds(token[1..], rest);
    }
  }

  lemma {:induction false} NoLeadingZero(n: nat)
    ensures Decimal(n) != "" && (Decimal(n)[0] == '0' ==> n == 0)
  {
    if 10 <= n {
      NoLeadingZero(n / 10);
    }
  }

  lemma IntegerReads(n: int)
    ensures var t := Decimal(n);
            && IntegerText(t) && (forall i :: 0 <= i < |t| ==> NumberChar(t[i]))
            && n == if t[0] == '-' then 0 - Digits(t[1..], 0) else Digits(t, 0)
  {
    var m := if n < 0 then -n else n;
    DecimalDigits(m);
    NoLeadingZero(m);
    DigitsOfDecimal(m, "");
    assert Decimal(m) + "" == Decimal(m);
    if n < 0 {
      assert Decimal(n)[1..] == Decimal(m);
    }
  }

  lemma Split(a: string, b: string)
    ensures (a + b)[..|a|] == a && (a + b)[|a|..] == b && (a != "" ==> (a + b)[0] == a[0])
  {
  }

  lemma NumberAt(strtod: Strtod, t: string, token: string, rest: string)
    requires token != "" && TokenLength(t) == |token| && t[..|token|] == token && t[|token|..] == rest
    ensures ReadNumber(strtod, t)
         == if IntegerText(token) then
              Some((Num(if token[0] == '-' then 0 - Digits(token[1..], 0) else Digits(token, 0)), rest))
            else if strtod(token).Some? then Some((Float(strtod(token).value, token), rest))
            else None
  {
  }

  lemma NumbersDispatched(strtod: Strtod, t: string)
    requires t != "" && NumberChar(t[0])
    ensures ReadValue(strtod, t) == ReadNumber(strtod, t)
  {
    var c := t[0];
    assert c != 'n' && c != 't' && c != 'f' && c != '\"' && c != '[' && c != '{';
  }

  lemma WordReads(strtod: Strtod, j: Json, rest: string)
    requires j.Null? || j.Bool? || j == Arr([]) || j == Obj([])
    ensures ReadValue(strtod, Dump(j) + rest) == Some((j, rest))
  {
    assert DumpItems([]) == "" && DumpMembers([]) == "";
    assert "[" + "" + "]" == "[]" && "{" + "" + "}" == "{}";
    Split(Dump(j), rest);
  }

  lemma StringAt(strtod: Strtod, t: string, s: string, rest: string)
    requires t != "" && t[0] == '\"' && ReadString(t[1..]) == Some((s, rest))
    ensures ReadValue(strtod, t) == Some((Str(s), rest))
  {
  }

  /** A quoted string, opened. */
  lemma Opened(s: string, rest: string)
    ensures Quote(s) + rest == "\"" + (QuoteBody(s) + ("\"" + rest))
  {
    Regroup("\"", QuoteBody(s), "\"");
    Regroup("\"", QuoteBody(s) + "\"", rest);
    Regroup(QuoteBody(s), "\"", rest);
  }

  lemma StringReads(strtod: Strtod, s: string, rest: string)
    ensures ReadValue(strtod, Quote(s) + rest) == Some((Str(s), rest))
  {
    Opened(s, rest);
    QuoteReads(s, rest);
    Split("\"", QuoteBody(s) + ("\"" + rest));
    StringAt(strtod, Quote(s) + rest, s, rest);
  }

  lemma NumberReads(strtod: Strtod, j: Json, rest: string)
    requires (j.Num? || j.Float?) && Dumpable(strtod, j) && Ends(rest)
    ensures ReadValue(strtod, Dump(j) + rest) == Some((j, rest))
  {
    var token := Dump(j);
    if j.Num? { IntegerReads(j.n); }
    TokenEnds(token, rest);
    Split(token, rest);
    NumberAt(strtod, token + rest, token, rest);
    NumbersDispatched(strtod, token + rest);
  }

  /** What a value's text begins with: never the end of what it stands in. */
  lemma DumpBegins(strtod: Strtod, j: Json)
    requires Dumpable(strtod, j)
    ensures Dump(j) != "" && Dump(j)[0] != ']'
  {
    if j.Num? { IntegerReads(j.n); }
  }

  lemma Unlike(t: string, word: string)
    requires |word| == 2 <= |t| && t[1] != word[1]
    ensures !Begins(t, word)
  {
    assert t[..2][1] == t[1];
  }

  lemma ArrayAt(strtod: Strtod, t: string, body: string, items: seq<Json>, rest: string)
    requires t != "" && t[0] == '[' && t[1..] == body && body != "" && body[0] != ']'
    requires ReadItems(strtod, body) == Some((items, rest))
    ensures ReadValue(strtod, t) == Some((Arr(items), rest))
  {
    assert t[1] == t[1..][0] == body[0];
    Unlike(t, "[]");
  }

  lemma ObjectAt(strtod: Strtod, t: string, body: string, members: seq<Member>, rest: string)
    requires t != "" && t[0] == '{' && t[1..] == body && body != "" && body[0] != '}'
    requires ReadMembers(strtod, body) == Some((members, rest))
    ensures ReadValue(strtod, t) == Some((Obj(members), rest))
  {
    assert t[1] == t[1..][0] == body[0];
    Unlike(t, "{}");
  }

  lemma ItemsEnd(strtod: Strtod, t: string, first: Json, rest: string)
    requires ReadValue(strtod, t) == Some((first, "]" + rest))
    ensures ReadItems(strtod, t) == Some(([first], rest))
  {
    Split("]", rest);
  }

  lemma ItemsGoOn(strtod: Strtod, t: string, first: Json, tail: string, others: seq<Json>, rest: string)
    requires ReadValue(strtod, t) == Some((first, "," + tail)) && ReadItems(strtod, tail) == Some((others, rest))
    ensures ReadItems(strtod, t) == Some(([first] + others, rest))
  {
    Split(",", tail);
  }

  lemma MembersEnd(strtod: Strtod, t: string, name: string, value: string, first: Json, rest: string)
    requires Begins(t, "\"") && ReadString(t[1..]) == Some((name, ":" + value))
    requires ReadValue(strtod, value) == Some((first, "}" + rest))
    ensures ReadMembers(strtod, t) == Some(([Member(name, first)], rest))
  {
    Split(":", value);
    Split("}", rest);
  }

  lemma MembersGoOn(
      strtod: Strtod, t: string, name: string, value: string, first: Json, tail: string, others: seq<Member>,
      rest: string)
    requires Begins(t, "\"") && ReadString(t[1..]) == Some((name, ":" + value))
    requires ReadValue(strtod, value) == Some((first, "," + tail)) && ReadMembers(strtod, tail) == Some((others, rest))
    ensures ReadMembers(strtod, t) == Some(([Member(name, first)] + others, rest))
  {
    Split(":", value);
    Split(",", tail);
  }

  /** The text of items, one by one. */
  lemma ItemsText(items: seq<Json>, rest: string)
    requires items != []
    ensures DumpItems(items) + rest
         == Dump(items[0]) + (if |items| == 1 then rest else "," + (DumpItems(items[1..]) + rest))
  {
    if |items| == 1 {
      assert DumpItems(items[1..]) == "";
      assert DumpItems(items) == Dump(items[0]);
    } else {
      Regroup(Dump(items[0]), ",", DumpItems(items[1..]));
      Regroup(Dump(items[0]), "," + DumpItems(items[1..]), rest);
      Regroup(",", DumpItems(items[1..]), rest);
    }
  }

  lemma MembersText(members: seq<Member>, rest: string)
    requires members != []
    ensures var value := Dump(members[0].value)
                         + (if |members| == 1 then rest else "," + (DumpMembers(members[1..]) + rest));
            DumpMembers(members) + rest == "\"" + (QuoteBody(members[0].name) + ("\"" + (":" + value)))
  {
    var head, tail := Quote(members[0].name) + ":" + Dump(members[0].value), DumpMembers(members[1..]);
    if |members| == 1 {
      assert DumpMembers(members) == head by { assert tail == ""; }
      Regroup(Quote(members[0].name) + ":", Dump(members[0].value), rest);
      Regroup(Quote(members[0].name), ":", Dump(members[0].value) + rest);
      Opened(members[0].name, ":" + (Dump(members[0].value) + rest));
    } else {
      var after := "," + (tail + rest);
      assert DumpMembers(members) == head + "," + tail;
      Regroup(head, ",", tail);
      Regroup(head, "," + tail, rest);
      Regroup(",", tail, rest);
      Regroup(Quote(members[0].name) + ":", Dump(members[0].value), after);
      Regroup(Quote(members[0].name), ":", Dump(members[0].value) + after);
      Opened(members[0].name, ":" + (Dump(members[0].value) + after));
    }
  }

  lemma {:induction false} ValueReads(strtod: Strtod, j: Json, rest: string)
    requires Dumpable(strtod, j) && Ends(rest)
    ensures ReadValue(strtod, Dump(j) + rest) == Some((j, rest))
    decreases j
  {
    match j
    case Num(_) => NumberReads(strtod, j, rest);
    case Float(_, _) => NumberReads(strtod, j, rest);
    case Str(s) => StringReads(strtod, s, rest);
    case Arr(items) =>
      if items == [] {
        WordReads(strtod, j, rest);
      } else {
        ItemsRead(strtod, items, rest);
        ItemsBegin(strtod, items);
        ArrayOf(strtod, DumpItems(items), Dump(j) + rest, items, rest);
      }
    case Obj(members) =>
      if members == [] {
        WordReads(strtod, j, rest);
      } else {
        MembersRead(strtod, members, rest);
        MembersBegin(members);
        ObjectOf(strtod, DumpMembers(members), Dump(j) + rest, members, rest);
      }
    case _ => WordReads(strtod, j, rest);
  }

  /** A bracketed body, opened. */
  lemma BracketOpened(open: string, body: string, close: string, rest: string)
    requires |open| == 1
    ensures var t := open + body + close + rest; t[0] == open[0] && t[1..] == body + (close + rest)
  {
    Regroup(open + body, close, rest);
    Regroup(open, body, close + rest);
    Split(open, body + (close + rest));
  }

  lemma ArrayOf(strtod: Strtod, inner: string, t: string, items: seq<Json>, rest: string)
    requires t == "[" + inner + "]" + rest && inner != "" && inner[0] != ']'
    requires ReadItems(strtod, inner + ("]" + rest)) == Some((items, rest))
    ensures ReadValue(strtod, t) == Some((Arr(items), rest))
  {
    BracketOpened("[", inner, "]", rest);
    ArrayAt(strtod, t, inner + ("]" + rest), items, rest);
  }

  lemma ObjectOf(strtod: Strtod, inner: string, t: string, members: seq<Member>, rest: string)
    requires t == "{" + inner + "}" + rest && inner != "" && inner[0] != '}'
    requires ReadMembers(strtod, inner + ("}" + rest)) == Some((members, rest))
    ensures ReadValue(strtod, t) == Some((Obj(members), rest))
  {
    BracketOpened("{", inner, "}", rest);
    ObjectAt(strtod, t, inner + ("}" + rest), members, rest);
  }

  lemma ItemsBegin(strtod: Strtod, items: seq<Json>)
    requires items != [] && Dumpable(strtod, items[0])
    ensures DumpItems(items) != "" && DumpItems(items)[0] != ']'
  {
    DumpBegins(strtod, items[0]);
  }

  lemma MembersBegin(members: seq<Member>)
    requires members != []
    ensures DumpMembers(members) != "" && DumpMembers(members)[0] == '\"'
  {
    assert Quote(members[0].name)[0] == '\"';
  }

  lemma {:induction false} ItemsRead(strtod: Strtod, items: seq<Json>, rest: string)
    requires items != [] && forall i :: 0 <= i < |items| ==> Dumpable(strtod, items[i])
    ensures ReadItems(strtod, DumpItems(items) + ("]" + rest)) == Some((items, rest))
    decreases items
  {
    var t := DumpItems(items) + ("]" + rest);
    ItemsText(items, "]" + rest);
    if |items| == 1 {
      ValueReads(strtod, items[0], "]" + rest);
      ItemsEnd(strtod, t, items[0], rest);
      assert items == [items[0]];
    } else {
      var tail := DumpItems(items[1..]) + ("]" + rest);
      ValueReads(strtod, items[0], "," + tail);
      ItemsRead(strtod, items[1..], rest);
      ItemsGoOn(strtod, t, items[0], tail, items[1..], rest);
      assert items == [items[0]] + items[1..];
    }
  }

  /** A member's name and colon read, its value is next. */
  lemma MemberText(name: string, value: string)
    ensures var t := "\"" + (QuoteBody(name) + ("\"" + (":" + value)));
            Begins(t, "\"") && ReadString(t[1..]) == Some((name, ":" + value))
  {
    Split("\"", QuoteBody(name) + ("\"" + (":" + value)));
    QuoteReads(name, ":" + value);
  }

  lemma LastMember(strtod: Strtod, t: string, m: Member, value: string, rest: string)
    requires t == "\"" + (QuoteBody(m.name) + ("\"" + (":" + value)))
    requires ReadValue(strtod, value) == Some((m.value, "}" + rest))
    ensures ReadMembers(strtod, t) == Some(([m], rest))
  {
    MemberText(m.name, value);
    MembersEnd(strtod, t, m.name, value, m.value, rest);
  }

  lemma NextMember(
      strtod: Strtod, t: string, m: Member, value: string, tail: string, others: seq<Member>, rest: string)
    requires t == "\"" + (QuoteBody(m.name) + ("\"" + (":" + value)))
    requires ReadValue(strtod, value) == Some((m.value, "," + tail))
    requires ReadMembers(strtod, tail) == Some((others, rest))
    ensures ReadMembers(strtod, t) == Some(([m] + others, rest))
  {
    MemberText(m.name, value);
    MembersGoOn(strtod, t, m.name, value, m.value, tail, others, rest);
  }

  lemma {:induction false} MembersRead(strtod: Strtod, members: seq<Member>, rest: string)
    requires members != [] && forall i :: 0 <= i < |members| ==> Dumpable(strtod, members[i].value)
    ensures ReadMembers(strtod, DumpMembers(members) + ("}" + rest)) == Some((members, rest))
    decreases members
  {
    var m, t := members[0], DumpMembers(members) + ("}" + rest);
    MembersText(members, "}" + rest);
    if |members| == 1 {
      ValueReads(strtod, m.value, "}" + rest);
      LastMember(strtod, t, m, Dump(m.value) + ("}" + rest), rest);
      assert members == [m];
    } else {
      var tail := DumpMembers(members[1..]) + ("}" + rest);
      ValueReads(strtod, m.value, "," + tail);
      MembersRead(strtod, members[1..], rest);
      NextMember(strtod, t, m, Dump(m.value) + ("," + tail), tail, members[1..], rest);
      assert members == [m] + members[1..];
    }
  }

  /** A document that was dumped parses back to itself. */
  lemma DumpParses(strtod: Strtod, j: Json)
    requires Dumpable(strtod, j)
    ensures Parse(strtod, Dump(j)) == Some(j)
  {
    ValueReads(strtod, j, "");
    assert Dump(j) + "" == Dump(j);
  }
}
