/** A reader for JSON texts without insignificant white space, after the grammar of sections 2 to 7 of
    RFC 8259: whole numbers only, and no escaped surrogates. It shares nothing with the printer but
    the type of values. */
module JsonReader {
  import opened Wrappers
  import opened CanonicalJson
  import Ordering
  import Decimal

  predicate StartsWithText(s: string, literal: string) {
    |literal| <= |s| && s[..|literal|] == literal
  }

  /** Reads one value and gives what follows it. */
  function ReadValue(s: string): (r: Option<(Json, string)>)
    ensures r.Some? ==> |r.value.1| < |s|
    decreases |s|, 0
  {
    if StartsWithText(s, "null") then Some((Null, s[4..]))
    else if StartsWithText(s, "true") then Some((Bool(true), s[4..]))
    else if StartsWithText(s, "false") then Some((Bool(false), s[5..]))
    else if s == "" then None
    else if s[0] == '"' then
      var text := ReadString(s[1..]);
      if text.Some? then Some((Str(text.value.0), text.value.1)) else None
    else if s[0] == '[' then
      if StartsWithText(s[1..], "]") then Some((Arr([]), s[2..]))
      else
        var items := ReadItems(s[1..]);
        if items.Some? then Some((Arr(items.value.0), items.value.1)) else None
    else if s[0] == '{' then
      if StartsWithText(s[1..], "}") then Some((Obj([]), s[2..]))
      else
        var fields := ReadFields(s[1..]);
        if fields.Some? then Some((Obj(fields.value.0), fields.value.1)) else None
    else ReadNumber(s)
  }

  /** value *( "," value ) "]" */
  function ReadItems(s: string): (r: Option<(seq<Json>, string)>)
    ensures r.Some? ==> |r.value.1| < |s|
    decreases |s|, 1
  {
    var first := ReadValue(s);
    if first.None? || first.value.1 == "" then None
    else if first.value.1[0] == ']' then Some(([first.value.0], first.value.1[1..]))
    else if first.value.1[0] == ',' then
      var more := ReadItems(first.value.1[1..]);
      if more.Some? then Some(([first.value.0] + more.value.0, more.value.1)) else None
    else None
  }

  /** string ":" value *( "," string ":" value ) "}" */
  function ReadFields(s: string): (r: Option<(seq<Field>, string)>)
    ensures r.Some? ==> |r.value.1| < |s|
    decreases |s|, 1
  {
    if s == "" || s[0] != '"' then None
    else
      var key := ReadString(s[1..]);
      if key.None? || key.value.1 == "" || key.value.1[0] != ':' then None
      else
        var first := ReadValue(key.value.1[1..]);
        if first.None? || first.value.1 == "" then None
        else
          var field := Field(key.value.0, first.value.0);
          if first.value.1[0] == '}' then Some(([field], first.value.1[1..]))
          else if first.value.1[0] == ',' then
            var more := ReadFields(first.value.1[1..]);
            if more.Some? then Some(([field] + more.value.0, more.value.1)) else None
          else None
  }

  /** [ "-" ] ( "0" / a digit from 1 to 9 and more digits ) */
  function ReadNumber(s: string): (r: Option<(Json, string)>)
    ensures r.Some? ==> |r.value.1| < |s|
  {
    if s == "" then None
    else if s[0] == '-' then
      var n := ReadNatural(s[1..]);
      if n.Some? then Some((Num(0 - n.value.0), n.value.1)) else None
    else
      var n := ReadNatural(s);
      if n.Some? then Some((Num(n.value.0), n.value.1)) else None
  }

  function ReadNatural(s: string): (r: Option<(nat, string)>)
    ensures r.Some? ==> |r.value.1| < |s|
  {
    if s == "" || !('0' <= s[0] <= '9') then None
    else if s[0] == '0' then Some((0, s[1..]))
    else Some(ReadDigits(s[0] as int - '0' as int, s[1..]))
  }

  function ReadDigits(before: nat, s: string): (r: (nat, string))
    ensures |r.1| <= |s|
    decreases |s|
  {
    if s != "" && '0' <= s[0] <= '9' then ReadDigits(10 * before + (s[0] as int - '0' as int), s[1..]) else (before, s)
  }

  function HexValue(c: char): Option<nat> {
    if '0' <= c <= '9' then Some(c as int - '0' as int)
    else if 'a' <= c <= 'f' then Some(10 + (c as int - 'a' as int))
    else if 'A' <= c <= 'F' then Some(10 + (c as int - 'A' as int))
    else None
  }

  /** What follows an opening quotation mark, up to the closing one. */
  function ReadString(s: string): (r: Option<(string, string)>)
    ensures r.Some? ==> |r.value.1| < |s|
    decreases |s|
  {
    if s == "" then None
    else if s[0] == '"' then Some(("", s[1..]))
    else
      var c := ReadChar(s);
      if c.None? then None
      else
        var more := ReadString(c.value.1);
        if more.Some? then Some(([c.value.0] + more.value.0, more.value.1)) else None
  }

  /** One character of a string, escaped or not. */
  function ReadChar(s: string): (r: Option<(char, string)>)
    requires s != ""
    ensures r.Some? ==> |r.value.1| < |s|
  {
    if s[0] != '\\' then
      if s[0] as int >= 0x20 then Some((s[0], s[1..])) else None
    else if |s| < 2 then None
    else if s[1] == '"' then Some((0x22 as char, s[2..]))
    else if s[1] == '\\' then Some((0x5C as char, s[2..]))
    else if s[1] == '/' then Some((0x2F as char, s[2..]))
    else if s[1] == 'b' then Some((0x08 as char, s[2..]))
    else if s[1] == 'f' then Some((0x0C as char, s[2..]))
    else if s[1] == 'n' then Some((0x0A as char, s[2..]))
    else if s[1] == 'r' then Some((0x0D as char, s[2..]))
    else if s[1] == 't' then Some((0x09 as char, s[2..]))
    else if s[1] == 'u' && |s| >= 6 then
      var a, b, c, d := HexValue(s[2]), HexValue(s[3]), HexValue(s[4]), HexValue(s[5]);
      if a.Some? && b.Some? && c.Some? && d.Some? && 0x1000 * a.value + 0x100 * b.value + 0x10 * c.value + d.value < 0xD800 then
        Some(((0x1000 * a.value + 0x100 * b.value + 0x10 * c.value + d.value) as char, s[6..]))
      else None
    else None
  }

  // --- Reading back strings ---

  /** An escape is read back as its character. */
  lemma CharReadBack(c: char, x: string)
    ensures EscapeChar(c) + x != "" && (EscapeChar(c) + x)[0] != '"' && ReadChar(EscapeChar(c) + x) == Some((c, x))
  {
    var e := EscapeChar(c);
    assert (e + x)[|e|..] == x;
    if |e| == 6 {
      HexReadBack(c as int / 16);
      HexReadBack(c as int % 16);
      HexReadBack(0);
      assert (e + x)[2] == '0' && (e + x)[3] == '0' && (e + x)[4] == e[4] && (e + x)[5] == e[5];
    } else {
      assert (e + x)[0] == e[0] && (|e| == 2 ==> (e + x)[1] == e[1]);
    }
  }

  lemma HexReadBack(n: int)
    requires 0 <= n < 16
    ensures HexValue(HexDigit(n)) == Some(n)
  {}

  lemma {:induction false} StringReadBack(text: string, s: string)
    ensures ReadString(EscapeAll(text) + "\"" + s) == Some((text, s))
  {
    if text == "" {
      assert (EscapeAll(text) + "\"" + s)[0] == '"' && (EscapeAll(text) + "\"" + s)[1..] == s;
    } else {
      StringReadBack(text[1..], s);
      EscapedHead(text, s);
      CharReadBack(text[0], EscapeAll(text[1..]) + "\"" + s);
      assert text == [text[0]] + text[1..];
    }
  }

  /** The escapes are those of JSON.stringify: characters from U+0020 on stand for themselves, except
      the quotation mark and the backslash; these and five control characters have two-character
      escapes; every other control character has a six-character one in lower case. */
  lemma EscapesExactly(c: char)
    ensures c as int >= 0x20 && c as int != 0x22 && c as int != 0x5C ==> EscapeChar(c) == [c]
    ensures c as int in {0x08, 0x09, 0x0A, 0x0C, 0x0D, 0x22, 0x5C} ==> |EscapeChar(c)| == 2 && EscapeChar(c)[0] == '\\'
    ensures c as int < 0x20 && c as int !in {0x08, 0x09, 0x0A, 0x0C, 0x0D} ==>
      |EscapeChar(c)| == 6 && EscapeChar(c)[..4] == "\\u00" && forall i :: 4 <= i < 6 ==> !('A' <= EscapeChar(c)[i] <= 'F')
  {}

  // --- Reading back numbers ---

  predicate AllDigits(s: string) {
    forall i :: 0 <= i < |s| ==> '0' <= s[i] <= '9'
  }

  function Accumulate(before: nat, digits: string): nat
    requires AllDigits(digits)
    decreases |digits|
  {
    if digits == "" then before else Accumulate(10 * before + (digits[0] as int - '0' as int), digits[1..])
  }

  lemma {:induction false} AccumulateLast(before: nat, digits: string, d: char)
    requires AllDigits(digits) && '0' <= d <= '9'
    ensures Accumulate(before, digits + [d]) == 10 * Accumulate(before, digits) + (d as int - '0' as int)
    decreases |digits|
  {
    if digits == "" {
      assert (digits + [d])[1..] == "";
    } else {
      assert (digits + [d])[1..] == digits[1..] + [d];
      AccumulateLast(10 * before + (digits[0] as int - '0' as int), digits[1..], d);
    }
  }

  lemma TextIsDigits(n: nat)
    ensures AllDigits(Decimal.ToText(n))
  {
    var text := Decimal.ToText(n);
    assert forall i :: 0 <= i < |text| ==> text[i] in text;
  }

  /** The decimal text of a number is worth that number, and starts with 0 only for 0. */
  lemma {:induction false} TextIsWorth(n: nat)
    ensures AllDigits(Decimal.ToText(n))
    ensures Accumulate(0, Decimal.ToText(n)) == n
    ensures Decimal.ToText(n)[0] == '0' <==> n == 0
    ensures n == 0 ==> Decimal.ToText(n) == "0"
  {
    TextIsDigits(n);
    if n >= 10 {
      TextIsWorth(n / 10);
      AccumulateLast(0, Decimal.ToText(n / 10), Decimal.Digit(n % 10));
    } else {
      assert Decimal.ToText(n)[1..] == "";
    }
  }

  lemma {:induction false} DigitsReadBack(before: nat, digits: string, s: string)
    requires AllDigits(digits) && Terminates(s)
    ensures ReadDigits(before, digits + s) == (Accumulate(before, digits), s)
    decreases |digits|
  {
    if digits == "" {
      assert digits + s == s;
    } else {
      assert (digits + s)[0] == digits[0] && (digits + s)[1..] == digits[1..] + s;
      DigitsReadBack(10 * before + (digits[0] as int - '0' as int), digits[1..], s);
    }
  }

  lemma ReadFirstDigit(c: char, rest: string)
    requires '1' <= c <= '9'
    ensures ReadNatural([c] + rest) == Some(ReadDigits(c as int - '0' as int, rest))
  {
    assert ([c] + rest)[0] == c && ([c] + rest)[1..] == rest;
  }

  lemma ReadNonzero(c: char, more: string, s: string)
    requires '1' <= c <= '9' && AllDigits(more) && Terminates(s)
    ensures ReadNatural([c] + more + s) == Some((Accumulate(c as int - '0' as int, more), s))
  {
    ReadFirstDigit(c, more + s);
    DigitsReadBack(c as int - '0' as int, more, s);
    Ordering.ConcatAssociative([c], more, s);
  }

  lemma AccumulateFirst(c: char, more: string)
    requires '0' <= c <= '9' && AllDigits(more)
    ensures AllDigits([c] + more) && Accumulate(0, [c] + more) == Accumulate(c as int - '0' as int, more)
  {
    assert ([c] + more)[0] == c && ([c] + more)[1..] == more;
  }

  lemma NaturalReadBack(n: nat, s: string)
    requires Terminates(s)
    ensures ReadNatural(Decimal.ToText(n) + s) == Some((n, s))
  {
    TextIsWorth(n);
    if n == 0 {
      assert ("0" + s)[1..] == s;
    } else {
      var c, more := Decimal.ToText(n)[0], Decimal.ToText(n)[1..];
      assert Decimal.ToText(n) == [c] + more;
      ReadNonzero(c, more, s);
      AccumulateFirst(c, more);
    }
  }

  lemma NumberReadBack(n: int, s: string)
    requires Terminates(s)
    ensures ReadNumber(IntText(n) + s) == Some((Num(n), s))
  {
    IntHead(n, s);
    if n < 0 {
      NaturalReadBack(-n, s);
    } else {
      NaturalReadBack(n, s);
    }
  }

  // --- Reading back values ---

  /** The value with the keys of every object in printing order. */
  function Ordered(leq: (string, string) -> bool, v: Json): Json
    decreases v, 1, 0
  {
    match v
    case Arr(items) => Arr(OrderedItems(leq, v, items))
    case Obj(fields) => Ordering.SortMembers(leq, KeysOf(fields)); Obj(OrderedFields(leq, v, SortedKeys(leq, fields)))
    case _ => v
  }

  function OrderedItems(leq: (string, string) -> bool, v: Json, items: seq<Json>): (r: seq<Json>)
    requires v.Arr? && forall i :: 0 <= i < |items| ==> items[i] in v.items
    ensures |r| == |items| && forall i :: 0 <= i < |r| ==> r[i] == Ordered(leq, items[i])
    decreases v, 0, |items|
  {
    if items == [] then [] else [Ordered(leq, items[0])] + OrderedItems(leq, v, items[1..])
  }

  function OrderedFields(leq: (string, string) -> bool, v: Json, keys: seq<string>): (r: seq<Field>)
    requires v.Obj? && forall i :: 0 <= i < |keys| ==> keys[i] in KeysOf(v.fields)
    ensures |r| == |keys| && forall i :: 0 <= i < |r| ==> r[i] == Field(keys[i], Ordered(leq, ValueAt(v, keys[i])))
    decreases v, 0, |keys|
  {
    if keys == [] then [] else [Field(keys[0], Ordered(leq, ValueAt(v, keys[0])))] + OrderedFields(leq, v, keys[1..])
  }

  /** What is read back, whatever follows, as long as a number cannot run on into it. */
  ghost predicate IsReadBack(leq: (string, string) -> bool, v: Json, s: string) {
    ReadValue(StableJson(leq, v) + s) == Some((Ordered(leq, v), s))
  }

  lemma HeadOf(leq: (string, string) -> bool, v: Json, s: string)
    ensures StableJson(leq, v) + s != "" && (StableJson(leq, v) + s)[0] == FirstChar(v)
  {
    StartsWith(leq, v);
  }

  lemma {:induction false} ReadsBack(leq: (string, string) -> bool, v: Json, s: string)
    requires Terminates(s)
    ensures IsReadBack(leq, v, s)
    decreases v, 1, 0
  {
    match v
    case Null => assert ("null" + s)[..4] == "null" && ("null" + s)[4..] == s;
    case Bool(b) => BoolReadBack(b, s);
    case Num(n) => NumReadBack(leq, n, s);
    case Str(text) => StrReadBack(leq, text, s);
    case Arr(items) =>
      if items != [] { ItemsReadBack(leq, v, items, s); }
      ArrayReadBack(leq, v, s);
    case Obj(fields) =>
      Ordering.SortMembers(leq, KeysOf(fields));
      if SortedKeys(leq, fields) != [] { FieldsReadBack(leq, v, SortedKeys(leq, fields), s); }
      ObjectReadBack(leq, v, s);
  }

  lemma OtherHead(u: string, literal: string)
    requires u != "" && literal != "" && u[0] != literal[0]
    ensures !StartsWithText(u, literal)
  {
    if |literal| <= |u| {
      assert u[..|literal|][0] == u[0];
    }
  }

  lemma BoolReadBack(b: bool, s: string)
    ensures ReadValue((if b then "true" else "false") + s) == Some((Bool(b), s))
  {
    var literal := if b then "true" else "false";
    var u := literal + s;
    assert u[0] == literal[0] && u[..|literal|] == literal && u[|literal|..] == s;
    OtherHead(u, "null");
    if !b {
      OtherHead(u, "true");
    }
  }

  /** A text that starts with none of n, t and f is no literal. */
  lemma NoLiteral(u: string)
    requires u != "" && u[0] != 'n' && u[0] != 't' && u[0] != 'f'
    ensures !StartsWithText(u, "null") && !StartsWithText(u, "true") && !StartsWithText(u, "false")
  {
    OtherHead(u, "null");
    OtherHead(u, "true");
    OtherHead(u, "false");
  }

  lemma NumReadBack(leq: (string, string) -> bool, n: int, s: string)
    requires Terminates(s)
    ensures IsReadBack(leq, Num(n), s)
  {
    HeadOf(leq, Num(n), s);
    StartsWith(leq, Num(n));
    NoLiteral(IntText(n) + s);
    NumberReadBack(n, s);
  }

  lemma StrReadBack(leq: (string, string) -> bool, text: string, s: string)
    ensures IsReadBack(leq, Str(text), s)
  {
    NoLiteral(Quote(text) + s);
    QuoteTail(text, s);
    StringReadBack(text, s);
  }

  lemma ReadArray(x: string)
    ensures ReadValue("[" + x) ==
            if StartsWithText(x, "]") then Some((Arr([]), x[1..]))
            else if ReadItems(x).Some? then Some((Arr(ReadItems(x).value.0), ReadItems(x).value.1)) else None
  {
    var u := "[" + x;
    assert u[0] == '[' && u[1..] == x && (x != "" ==> u[2..] == x[1..]);
    NoLiteral(u);
  }

  lemma ReadObject(x: string)
    ensures ReadValue("{" + x) ==
            if StartsWithText(x, "}") then Some((Obj([]), x[1..]))
            else if ReadFields(x).Some? then Some((Obj(ReadFields(x).value.0), ReadFields(x).value.1)) else None
  {
    var u := "{" + x;
    assert u[0] == '{' && u[1..] == x && (x != "" ==> u[2..] == x[1..]);
    NoLiteral(u);
  }

  lemma ArrayReadBack(leq: (string, string) -> bool, v: Json, s: string)
    requires v.Arr?
    requires v.items != [] ==> ReadItems(JoinItems(leq, v, v.items) + "]" + s) == Some((OrderedItems(leq, v, v.items), s))
    ensures IsReadBack(leq, v, s)
  {
    var x := JoinItems(leq, v, v.items) + "]" + s;
    assert StableJson(leq, v) + s == "[" + x;
    ReadArray(x);
    ItemsEmptyAlike(leq, v, v.items, s);
    if v.items == [] {
      assert x[..1] == "]" && x[1..] == s;
    } else {
      OtherHead(x, "]");
    }
  }

  lemma ObjectReadBack(leq: (string, string) -> bool, v: Json, s: string)
    requires v.Obj? && forall i :: 0 <= i < |SortedKeys(leq, v.fields)| ==> SortedKeys(leq, v.fields)[i] in KeysOf(v.fields)
    requires var keys := SortedKeys(leq, v.fields);
      keys != [] ==> ReadFields(JoinFields(leq, v, keys) + "}" + s) == Some((OrderedFields(leq, v, keys), s))
    ensures IsReadBack(leq, v, s)
  {
    var keys := SortedKeys(leq, v.fields);
    var x := JoinFields(leq, v, keys) + "}" + s;
    ObjectText(leq, v, s);
    ReadObject(x);
    FieldsEmptyAlike(leq, v, keys, s);
    if keys == [] {
      assert x[..1] == "}" && x[1..] == s;
    } else {
      OtherHead(x, "}");
    }
  }

  lemma TailParts(rest: string, last: bool, close: char, s: string)
    ensures var tail := TailText(rest, last, close, s);
      tail != "" && tail[0] == (if last then close else ',') && tail[1..] == if last then s else rest + [close] + s
  {}

  lemma ReadItemAnd(u: string, w: Json, tail: string)
    requires ReadValue(u) == Some((w, tail)) && tail != "" && (tail[0] == ']' || tail[0] == ',')
    ensures ReadItems(u) ==
            if tail[0] == ']' then Some(([w], tail[1..]))
            else if ReadItems(tail[1..]).Some? then Some(([w] + ReadItems(tail[1..]).value.0, ReadItems(tail[1..]).value.1)) else None
  {}

  lemma {:induction false} ItemsReadBack(leq: (string, string) -> bool, v: Json, a: seq<Json>, s: string)
    requires v.Arr? && (forall i :: 0 <= i < |a| ==> a[i] in v.items) && a != []
    ensures ReadItems(JoinItems(leq, v, a) + "]" + s) == Some((OrderedItems(leq, v, a), s))
    decreases v, 0, |a|
  {
    var rest := JoinItems(leq, v, a[1..]);
    var tail := TailText(rest, |a| == 1, ']', s);
    ItemsText(leq, v, a, s);
    TailTerminates(rest, |a| == 1, ']', s);
    TailParts(rest, |a| == 1, ']', s);
    ReadsBack(leq, a[0], tail);
    ReadItemAnd(JoinItems(leq, v, a) + "]" + s, Ordered(leq, a[0]), tail);
    if |a| == 1 {
      assert OrderedItems(leq, v, a) == [Ordered(leq, a[0])];
    } else {
      ItemsReadBack(leq, v, a[1..], s);
    }
  }

  lemma ReadFieldAnd(u: string, key: string, x: string, w: Json, tail: string)
    requires u != "" && u[0] == '"' && ReadString(u[1..]) == Some((key, ":" + x)) && ReadValue(x) == Some((w, tail))
    requires tail != "" && (tail[0] == '}' || tail[0] == ',')
    ensures ReadFields(u) ==
            if tail[0] == '}' then Some(([Field(key, w)], tail[1..]))
            else if ReadFields(tail[1..]).Some? then
              Some(([Field(key, w)] + ReadFields(tail[1..]).value.0, ReadFields(tail[1..]).value.1))
            else None
  {
    assert (":" + x)[0] == ':' && (":" + x)[1..] == x;
  }

  lemma {:induction false} FieldsReadBack(leq: (string, string) -> bool, v: Json, a: seq<string>, s: string)
    requires v.Obj? && (forall i :: 0 <= i < |a| ==> a[i] in KeysOf(v.fields)) && a != []
    ensures ReadFields(JoinFields(leq, v, a) + "}" + s) == Some((OrderedFields(leq, v, a), s))
    decreases v, 0, |a|
  {
    var value, rest := ValueAt(v, a[0]), JoinFields(leq, v, a[1..]);
    var tail := TailText(rest, |a| == 1, '}', s);
    FieldsText(leq, v, a, s);
    TailTerminates(rest, |a| == 1, '}', s);
    TailParts(rest, |a| == 1, '}', s);
    ReadsBack(leq, value, tail);
    KeyReadBack(a[0], StableJson(leq, value) + tail);
    ReadFieldAnd(JoinFields(leq, v, a) + "}" + s, a[0], StableJson(leq, value) + tail, Ordered(leq, value), tail);
    if |a| == 1 {
      assert OrderedFields(leq, v, a) == [Field(a[0], Ordered(leq, value))];
    } else {
      FieldsReadBack(leq, v, a[1..], s);
    }
  }

  lemma KeyReadBack(key: string, x: string)
    ensures var u := Quote(key) + (":" + x);
      u != "" && u[0] == '"' && ReadString(u[1..]) == Some((key, ":" + x)) && (":" + x)[0] == ':' && (":" + x)[1..] == x
  {
    QuoteTail(key, ":" + x);
    StringReadBack(key, ":" + x);
  }

  // --- What has been read ---

  lemma {:induction false} OrderedIsSame(leq: (string, string) -> bool, v: Json)
    requires WellFormed(v)
    ensures Same(v, Ordered(leq, v))
    decreases v
  {
    match v
    case Arr(items) =>
      forall i | 0 <= i < |items| ensures Same(items[i], Ordered(leq, items[i])) {
        OrderedIsSame(leq, items[i]);
      }
    case Obj(fields) =>
      Ordering.SortMembers(leq, KeysOf(fields));
      var keys := SortedKeys(leq, fields);
      var g := OrderedFields(leq, v, keys);
      assert KeysOf(g) == keys;
      forall i, j | 0 <= i < |fields| && 0 <= j < |g| && fields[i].key == g[j].key ensures Same(fields[i].value, g[j].value) {
        UniqueKey(fields, i);
        OrderedIsSame(leq, fields[i].value);
      }
    case _ =>
  }

  /** The keys of every object stand in order, at every depth. */
  ghost predicate KeysAscend(leq: (string, string) -> bool, v: Json) {
    match v
    case Arr(items) => forall i :: 0 <= i < |items| ==> KeysAscend(leq, items[i])
    case Obj(fields) =>
      && (forall i, j :: 0 <= i < j < |fields| ==> leq(fields[i].key, fields[j].key))
      && forall i :: 0 <= i < |fields| ==> KeysAscend(leq, fields[i].value)
    case _ => true
  }

  lemma {:induction false} OrderedAscends(leq: (string, string) -> bool, v: Json)
    requires Ordering.TotalOrder(leq)
    ensures KeysAscend(leq, Ordered(leq, v))
    decreases v
  {
    match v
    case Arr(items) =>
      forall i | 0 <= i < |items| ensures KeysAscend(leq, Ordered(leq, items[i])) {
        OrderedAscends(leq, items[i]);
      }
    case Obj(fields) =>
      Ordering.SortMembers(leq, KeysOf(fields));
      Ordering.SortSorted(leq, KeysOf(fields));
      var keys := SortedKeys(leq, fields);
      forall i | 0 <= i < |keys| ensures KeysAscend(leq, Ordered(leq, ValueAt(v, keys[i]))) {
        OrderedAscends(leq, ValueAt(v, keys[i]));
      }
    case _ =>
  }

  /** Reading the text gives the value itself, up to the order of object keys, with the keys of every
      object in order, and nothing is left over. */
  ghost predicate IsTextOf(leq: (string, string) -> bool, text: string, v: Json) {
    var r := ReadValue(text);
    r.Some? && r.value.1 == "" && Same(v, r.value.0) && KeysAscend(leq, r.value.0)
  }

  /** The canonical text is JSON, and the JSON of the value. */
  lemma CanonicalTextIsJson(leq: (string, string) -> bool, v: Json)
    requires Ordering.TotalOrder(leq) && WellFormed(v)
    ensures IsTextOf(leq, StableJson(leq, v), v)
  {
    ReadsBack(leq, v, "");
    assert StableJson(leq, v) + "" == StableJson(leq, v);
    OrderedIsSame(leq, v);
    OrderedAscends(leq, v);
  }

  /** What the policy hash is a hash of: a text that reads back as the policy. */
  lemma PolicyHashOfJson(hash: string -> string, leq: (string, string) -> bool, v: Json)
    requires Ordering.TotalOrder(leq) && WellFormed(v)
    ensures exists text :: PolicyHash(hash, leq, v) == hash(text) && IsTextOf(leq, text, v)
  {
    CanonicalTextIsJson(leq, v);
  }

  /** A string is printed character by character, between quotation marks. */
  lemma {:induction false} QuotedEach(a: string, b: string)
    ensures Quote(a) == "\"" + EscapeAll(a) + "\"" && EscapeAll(a + b) == EscapeAll(a) + EscapeAll(b)
    ensures |a| == 1 ==> EscapeAll(a) == EscapeChar(a[0])
  {
    if a == "" {
      assert a + b == b;
    } else {
      assert (a + b)[0] == a[0] && (a + b)[1..] == a[1..] + b;
      QuotedEach(a[1..], b);
      Ordering.ConcatAssociative(EscapeChar(a[0]), EscapeAll(a[1..]), EscapeAll(b));
    }
  }
}
