/** The canonical JSON printer behind the policy hash: object keys are sorted at every level. */
module CanonicalJson {
  import opened Ordering
  import Decimal

  /** A JSON value as JavaScript holds it: an object's properties come in some order. Text is a
      sequence of Unicode scalar values; numbers are whole. */
  datatype Json =
    | Null
    | Bool(b: bool)
    | Num(n: int)
    | Str(s: string)
    | Arr(items: seq<Json>)
    | Obj(fields: seq<Field>)

  datatype Field = Field(key: string, value: Json)

  function KeysOf(fields: seq<Field>): seq<string> {
    seq(|fields|, i requires 0 <= i < |fields| => fields[i].key)
  }

  ghost predicate WellFormed(v: Json) {
    match v
    case Arr(items) => forall i :: 0 <= i < |items| ==> WellFormed(items[i])
    case Obj(fields) =>
      && NoDuplicates(KeysOf(fields))
      && forall i :: 0 <= i < |fields| ==> WellFormed(fields[i].value)
    case _ => true
  }

  /** Equal up to the order of object keys, at every depth. */
  ghost predicate Same(v: Json, w: Json) {
    match (v, w)
    case (Arr(a), Arr(b)) => |a| == |b| && forall i :: 0 <= i < |a| ==> Same(a[i], b[i])
    case (Obj(f), Obj(g)) =>
      && (forall k :: k in KeysOf(f) <==> k in KeysOf(g))
      && forall i, j :: 0 <= i < |f| && 0 <= j < |g| && f[i].key == g[j].key ==> Same(f[i].value, g[j].value)
    case _ => v == w
  }

  // --- Strings, as in section 7 of RFC 8259 ---

  function HexDigit(n: int): char
    requires 0 <= n < 16
  {
    if n < 10 then '0' + n as char else 'a' + (n - 10) as char
  }

  function EscapeChar(c: char): (e: string)
    ensures e != "" && e[0] != '"'
  {
    if c == '"' then "\\\""
    else if c == '\\' then "\\\\"
    else if c == '\U{0008}' then "\\b"
    else if c == '\U{000C}' then "\\f"
    else if c == '\n' then "\\n"
    else if c == '\r' then "\\r"
    else if c == '\t' then "\\t"
    else if c < ' ' then ['\\', 'u', '0', '0', HexDigit(c as int / 16), HexDigit(c as int % 16)]
    else [c]
  }

  function EscapeAll(s: string): string {
    if s == "" then "" else EscapeChar(s[0]) + EscapeAll(s[1..])
  }

  function Quote(s: string): string {
    "\"" + EscapeAll(s) + "\""
  }

  lemma HexDigitInjective(m: int, n: int)
    requires 0 <= m < 16 && 0 <= n < 16 && HexDigit(m) == HexDigit(n)
    ensures m == n
  {}

  lemma SameSecond(c: char, d: char)
    requires EscapeChar(c)[0] == '\\' && EscapeChar(d)[0] == '\\' && EscapeChar(c)[1] == EscapeChar(d)[1]
    requires EscapeChar(c)[1] == 'u' ==> EscapeChar(c)[4..] == EscapeChar(d)[4..]
    ensures c == d
  {
    if EscapeChar(c)[1] == 'u' {
      var e, f := EscapeChar(c), EscapeChar(d);
      assert e[4] == e[4..][0] && e[5] == e[4..][1] && f[4] == f[4..][0] && f[5] == f[4..][1];
      HexDigitInjective(c as int / 16, d as int / 16);
      HexDigitInjective(c as int % 16, d as int % 16);
      assert c as int == d as int;
    }
  }

  /** Escapes are uniquely readable. */
  lemma EscapeReadable(c: char, d: char, x: string, y: string)
    requires EscapeChar(c) + x == EscapeChar(d) + y
    ensures c == d && x == y
  {
    var e, f, u := EscapeChar(c), EscapeChar(d), EscapeChar(c) + x;
    assert e[0] == u[0] == f[0];
    if e[0] == '\\' {
      assert e[1] == u[1] == f[1];
      if e[1] == 'u' {
        assert e[4] == u[4] == f[4] && e[5] == u[5] == f[5];
        assert e[4..] == f[4..];
      }
      SameSecond(c, d);
    }
    assert x == u[|e|..] && y == u[|f|..];
  }

  lemma EscapedHead(a: string, s: string)
    ensures (EscapeAll(a) + "\"" + s)[0] == '"' <==> a == ""
    ensures a != "" ==> EscapeAll(a) + "\"" + s == EscapeChar(a[0]) + (EscapeAll(a[1..]) + "\"" + s)
  {}

  lemma {:induction false} EscapedReadable(a: string, b: string, s: string, t: string)
    requires EscapeAll(a) + "\"" + s == EscapeAll(b) + "\"" + t
    ensures a == b && s == t
  {
    EscapedHead(a, s);
    EscapedHead(b, t);
    if a == "" {
      assert s == (EscapeAll(a) + "\"" + s)[1..] && t == (EscapeAll(b) + "\"" + t)[1..];
    } else {
      var x, y := EscapeAll(a[1..]) + "\"" + s, EscapeAll(b[1..]) + "\"" + t;
      EscapeReadable(a[0], b[0], x, y);
      EscapedReadable(a[1..], b[1..], s, t);
      assert a == [a[0]] + a[1..] && b == [b[0]] + b[1..];
    }
  }

  lemma QuoteTail(a: string, s: string)
    ensures (Quote(a) + s)[1..] == EscapeAll(a) + "\"" + s
  {}

  lemma QuoteReadable(a: string, b: string, s: string, t: string)
    requires Quote(a) + s == Quote(b) + t
    ensures a == b && s == t
  {
    QuoteTail(a, s);
    QuoteTail(b, t);
    EscapedReadable(a, b, s, t);
  }

  // --- Numbers ---

  function IntText(n: int): string {
    if n < 0 then "-" + Decimal.ToText(-n) else Decimal.ToText(n)
  }

  /** What may follow a value: nothing, or something that is not a digit. */
  predicate Terminates(s: string) {
    s == "" || !Decimal.IsDigit(s[0])
  }

  /** How many digits a text starts with. */
  function DigitRun(u: string): nat {
    if u == "" || !Decimal.IsDigit(u[0]) then 0 else 1 + DigitRun(u[1..])
  }

  lemma {:induction false} DigitRunOf(a: string, s: string)
    requires (forall i :: 0 <= i < |a| ==> Decimal.IsDigit(a[i])) && Terminates(s)
    ensures DigitRun(a + s) == |a|
  {
    if a == "" {
      assert a + s == s;
    } else {
      DigitRunOf(a[1..], s);
      assert (a + s)[1..] == a[1..] + s;
    }
  }

  lemma NatReadable(m: nat, n: nat, s: string, t: string)
    requires Terminates(s) && Terminates(t) && Decimal.ToText(m) + s == Decimal.ToText(n) + t
    ensures m == n && s == t
  {
    var a, b := Decimal.ToText(m), Decimal.ToText(n);
    assert (forall i :: 0 <= i < |a| ==> a[i] in a) && (forall i :: 0 <= i < |b| ==> b[i] in b);
    DigitRunOf(a, s);
    DigitRunOf(b, t);
    assert a == (a + s)[..|a|] && b == (b + t)[..|b|] && s == (a + s)[|a|..] && t == (b + t)[|b|..];
    Decimal.ToTextInjective(m, n);
  }

  lemma IntHead(n: int, s: string)
    ensures (IntText(n) + s)[0] == '-' <==> n < 0
    ensures n < 0 ==> (IntText(n) + s)[1..] == Decimal.ToText(-n) + s
  {
    if n >= 0 {
      var d := Decimal.ToText(n);
      assert d[0] in d;
    }
  }

  lemma IntReadable(m: int, n: int, s: string, t: string)
    requires Terminates(s) && Terminates(t) && IntText(m) + s == IntText(n) + t
    ensures m == n && s == t
  {
    IntHead(m, s);
    IntHead(n, t);
    if m < 0 {
      NatReadable(-m, -n, s, t);
    } else {
      NatReadable(m, n, s, t);
    }
  }

  // --- The printer ---

  function SortedKeys(leq: (string, string) -> bool, fields: seq<Field>): seq<string> {
    StableSort(leq, KeysOf(fields))
  }

  /** The position of a property. */
  function Find(fields: seq<Field>, key: string): (i: nat)
    requires key in KeysOf(fields)
    ensures i < |fields| && fields[i].key == key
  {
    if fields[0].key == key then 0
    else
      assert KeysOf(fields) == [fields[0].key] + KeysOf(fields[1..]);
      1 + Find(fields[1..], key)
  }

  function StableJson(leq: (string, string) -> bool, v: Json): string
    decreases v, 1, 0
  {
    match v
    case Null => "null"
    case Bool(b) => if b then "true" else "false"
    case Num(n) => IntText(n)
    case Str(s) => Quote(s)
    case Arr(items) => "[" + JoinItems(leq, v, items) + "]"
    case Obj(fields) => SortMembers(leq, KeysOf(fields)); "{" + JoinFields(leq, v, SortedKeys(leq, fields)) + "}"
  }

  function JoinItems(leq: (string, string) -> bool, v: Json, items: seq<Json>): string
    requires v.Arr? && forall i :: 0 <= i < |items| ==> items[i] in v.items
    decreases v, 0, |items|
  {
    if items == [] then ""
    else if |items| == 1 then StableJson(leq, items[0])
    else StableJson(leq, items[0]) + "," + JoinItems(leq, v, items[1..])
  }

  function FieldText(leq: (string, string) -> bool, v: Json, key: string): string
    requires v.Obj? && key in KeysOf(v.fields)
    decreases v, 0, 0
  {
    Quote(key) + ":" + StableJson(leq, v.fields[Find(v.fields, key)].value)
  }

  function JoinFields(leq: (string, string) -> bool, v: Json, keys: seq<string>): string
    requires v.Obj? && forall i :: 0 <= i < |keys| ==> keys[i] in KeysOf(v.fields)
    decreases v, 0, |keys| + 1
  {
    if keys == [] then ""
    else if |keys| == 1 then FieldText(leq, v, keys[0])
    else FieldText(leq, v, keys[0]) + "," + JoinFields(leq, v, keys[1..])
  }

  // --- Unique readability ---

  function FirstChar(v: Json): char {
    match v
    case Null => 'n'
    case Bool(b) => if b then 't' else 'f'
    case Num(n) => IntText(n)[0]
    case Str(_) => '"'
    case Arr(_) => '['
    case Obj(_) => '{'
  }

  lemma StartsWith(leq: (string, string) -> bool, v: Json)
    ensures StableJson(leq, v) != "" && StableJson(leq, v)[0] == FirstChar(v)
    ensures v.Num? ==> Decimal.IsDigit(FirstChar(v)) || FirstChar(v) == '-'
  {
    if v.Num? {
      var d := Decimal.ToText(if v.n < 0 then -v.n else v.n);
      assert d[0] in d;
    }
  }

  lemma Remainder(p: string, s: string, t: string)
    requires p + s == p + t
    ensures s == t
  {
    assert s == (p + s)[|p|..] && t == (p + t)[|p|..];
  }

  /** No text is the print of two different values, whatever follows it. */
  lemma {:induction false} Readable(leq: (string, string) -> bool, v: Json, w: Json, s: string, t: string)
    requires TotalOrder(leq) && WellFormed(v) && WellFormed(w) && Terminates(s) && Terminates(t)
    requires StableJson(leq, v) + s == StableJson(leq, w) + t
    ensures Same(v, w) && s == t
    decreases v, 2
  {
    StartsWith(leq, v);
    StartsWith(leq, w);
    var u := StableJson(leq, v) + s;
    assert FirstChar(v) == u[0] == FirstChar(w);
    match v
    case Null => Remainder("null", s, t);
    case Bool(b) => Remainder(StableJson(leq, v), s, t);
    case Num(n) => IntReadable(n, w.n, s, t);
    case Str(text) => QuoteReadable(text, w.s, s, t);
    case Arr(items) =>
      var x, y := JoinItems(leq, v, items) + "]" + s, JoinItems(leq, w, w.items) + "]" + t;
      assert u == "[" + x && u == "[" + y;
      Remainder("[", x, y);
      ItemsReadable(leq, v, items, w, w.items, s, t);
    case Obj(fields) =>
      ObjectReadable(leq, v, w, s, t);
  }

  /** What follows the first of some items or fields, up to the closing bracket and beyond. */
  function TailText(rest: string, last: bool, close: char, s: string): string {
    if last then [close] + s else "," + (rest + [close] + s)
  }

  lemma TailReadable(p: string, lastP: bool, q: string, lastQ: bool, close: char, s: string, t: string)
    requires close != ',' && TailText(p, lastP, close, s) == TailText(q, lastQ, close, t)
    ensures lastP == lastQ
    ensures if lastP then s == t else p + [close] + s == q + [close] + t
  {
    var x, y := TailText(p, lastP, close, s), TailText(q, lastQ, close, t);
    assert x[0] == (if lastP then close else ',') && y[0] == (if lastQ then close else ',');
    assert x[1..] == if lastP then s else p + [close] + s;
    assert y[1..] == if lastQ then t else q + [close] + t;
  }

  lemma TailTerminates(rest: string, last: bool, close: char, s: string)
    requires !Decimal.IsDigit(close)
    ensures Terminates(TailText(rest, last, close, s))
  {}

  lemma RegroupItems(m: string, j: string, s: string)
    ensures m + "]" + s == m + TailText(j, true, ']', s)
    ensures m + "," + j + "]" + s == m + TailText(j, false, ']', s)
  {}

  lemma ItemsText(leq: (string, string) -> bool, v: Json, a: seq<Json>, s: string)
    requires v.Arr? && (forall i :: 0 <= i < |a| ==> a[i] in v.items) && a != []
    ensures JoinItems(leq, v, a) + "]" + s == StableJson(leq, a[0]) + TailText(JoinItems(leq, v, a[1..]), |a| == 1, ']', s)
    ensures (JoinItems(leq, v, a) + "]" + s)[0] == FirstChar(a[0]) != ']'
  {
    StartsWith(leq, a[0]);
    RegroupItems(StableJson(leq, a[0]), JoinItems(leq, v, a[1..]), s);
  }

  lemma ItemsEmptyAlike(leq: (string, string) -> bool, v: Json, a: seq<Json>, s: string)
    requires v.Arr? && (forall i :: 0 <= i < |a| ==> a[i] in v.items)
    ensures (JoinItems(leq, v, a) + "]" + s)[0] == ']' <==> a == []
  {
    if a != [] { ItemsText(leq, v, a, s); }
  }

  lemma {:induction false} ItemsReadable(leq: (string, string) -> bool, v: Json, a: seq<Json>, w: Json, b: seq<Json>, s: string, t: string)
    requires TotalOrder(leq) && WellFormed(v) && WellFormed(w)
    requires v.Arr? && (forall i :: 0 <= i < |a| ==> a[i] in v.items)
    requires w.Arr? && (forall i :: 0 <= i < |b| ==> b[i] in w.items)
    requires JoinItems(leq, v, a) + "]" + s == JoinItems(leq, w, b) + "]" + t
    ensures |a| == |b| && (forall i :: 0 <= i < |a| ==> Same(a[i], b[i])) && s == t
    decreases v, 0, |a|
  {
    ItemsEmptyAlike(leq, v, a, s);
    ItemsEmptyAlike(leq, w, b, t);
    if a == [] {
      assert JoinItems(leq, v, a) + "]" + s == "]" + s && JoinItems(leq, w, b) + "]" + t == "]" + t;
      Remainder("]", s, t);
    } else {
      ItemsText(leq, v, a, s);
      ItemsText(leq, w, b, t);
      var p, q := JoinItems(leq, v, a[1..]), JoinItems(leq, w, b[1..]);
      Readable(leq, a[0], b[0], TailText(p, |a| == 1, ']', s), TailText(q, |b| == 1, ']', t));
      TailReadable(p, |a| == 1, q, |b| == 1, ']', s, t);
      if |a| > 1 {
        ItemsReadable(leq, v, a[1..], w, b[1..], s, t);
        assert forall i :: 1 <= i < |a| ==> a[i] == a[1..][i - 1] && b[i] == b[1..][i - 1];
      }
    }
  }

  /** The values under one key agree. */
  ghost predicate SameAt(v: Json, w: Json, key: string)
    requires v.Obj? && w.Obj?
  {
    key in KeysOf(v.fields) && key in KeysOf(w.fields)
    && Same(v.fields[Find(v.fields, key)].value, w.fields[Find(w.fields, key)].value)
  }

  lemma Regroup(q: string, m: string, j: string, s: string)
    ensures q + ":" + m + "}" + s == q + (":" + (m + TailText(j, true, '}', s)))
    ensures q + ":" + m + "," + j + "}" + s == q + (":" + (m + TailText(j, false, '}', s)))
  {}

  lemma FieldsText(leq: (string, string) -> bool, v: Json, a: seq<string>, s: string)
    requires v.Obj? && (forall i :: 0 <= i < |a| ==> a[i] in KeysOf(v.fields)) && a != []
    ensures JoinFields(leq, v, a) + "}" + s
         == Quote(a[0]) + (":" + (StableJson(leq, v.fields[Find(v.fields, a[0])].value)
                                  + TailText(JoinFields(leq, v, a[1..]), |a| == 1, '}', s)))
  {
    Regroup(Quote(a[0]), StableJson(leq, v.fields[Find(v.fields, a[0])].value), JoinFields(leq, v, a[1..]), s);
  }

  lemma FieldsEmptyAlike(leq: (string, string) -> bool, v: Json, a: seq<string>, s: string)
    requires v.Obj? && (forall i :: 0 <= i < |a| ==> a[i] in KeysOf(v.fields))
    ensures (JoinFields(leq, v, a) + "}" + s)[0] == '}' <==> a == []
  {
    if a != [] { FieldsText(leq, v, a, s); }
  }

  /** A quoted key, a colon, and the rest, read off two equal texts. */
  lemma KeyReadable(a: string, b: string, x: string, y: string)
    requires Quote(a) + (":" + x) == Quote(b) + (":" + y)
    ensures a == b && x == y
  {
    QuoteReadable(a, b, ":" + x, ":" + y);
    Remainder(":", x, y);
  }

  function ValueAt(v: Json, key: string): Json
    requires v.Obj? && key in KeysOf(v.fields)
  {
    v.fields[Find(v.fields, key)].value
  }

  /** The first fields of two equal texts have the same key, and the same text from their values on. */
  lemma FirstKeyReadable(leq: (string, string) -> bool, v: Json, a: seq<string>, w: Json, b: seq<string>, s: string, t: string)
    requires v.Obj? && (forall i :: 0 <= i < |a| ==> a[i] in KeysOf(v.fields)) && a != []
    requires w.Obj? && (forall i :: 0 <= i < |b| ==> b[i] in KeysOf(w.fields)) && b != []
    requires JoinFields(leq, v, a) + "}" + s == JoinFields(leq, w, b) + "}" + t
    ensures a[0] == b[0]
    ensures StableJson(leq, ValueAt(v, a[0])) + TailText(JoinFields(leq, v, a[1..]), |a| == 1, '}', s)
         == StableJson(leq, ValueAt(w, b[0])) + TailText(JoinFields(leq, w, b[1..]), |b| == 1, '}', t)
  {
    FieldsText(leq, v, a, s);
    FieldsText(leq, w, b, t);
    KeyReadable(a[0], b[0],
                StableJson(leq, ValueAt(v, a[0])) + TailText(JoinFields(leq, v, a[1..]), |a| == 1, '}', s),
                StableJson(leq, ValueAt(w, b[0])) + TailText(JoinFields(leq, w, b[1..]), |b| == 1, '}', t));
  }

  /** The first fields of two equal texts are the same field, and so is what follows them. */
  lemma FieldReadable(leq: (string, string) -> bool, v: Json, a: seq<string>, w: Json, b: seq<string>, s: string, t: string)
    requires TotalOrder(leq) && WellFormed(v) && WellFormed(w)
    requires v.Obj? && (forall i :: 0 <= i < |a| ==> a[i] in KeysOf(v.fields)) && a != []
    requires w.Obj? && (forall i :: 0 <= i < |b| ==> b[i] in KeysOf(w.fields)) && b != []
    requires JoinFields(leq, v, a) + "}" + s == JoinFields(leq, w, b) + "}" + t
    ensures a[0] == b[0] && SameAt(v, w, a[0])
    ensures TailText(JoinFields(leq, v, a[1..]), |a| == 1, '}', s) == TailText(JoinFields(leq, w, b[1..]), |b| == 1, '}', t)
    decreases v, 0, 0
  {
    FirstKeyReadable(leq, v, a, w, b, s, t);
    var x, y := TailText(JoinFields(leq, v, a[1..]), |a| == 1, '}', s), TailText(JoinFields(leq, w, b[1..]), |b| == 1, '}', t);
    TailTerminates(JoinFields(leq, v, a[1..]), |a| == 1, '}', s);
    TailTerminates(JoinFields(leq, w, b[1..]), |b| == 1, '}', t);
    Readable(leq, ValueAt(v, a[0]), ValueAt(w, b[0]), x, y);
  }

  lemma {:induction false} FieldsReadable(leq: (string, string) -> bool, v: Json, a: seq<string>, w: Json, b: seq<string>, s: string, t: string)
    requires TotalOrder(leq) && WellFormed(v) && WellFormed(w)
    requires v.Obj? && (forall i :: 0 <= i < |a| ==> a[i] in KeysOf(v.fields))
    requires w.Obj? && (forall i :: 0 <= i < |b| ==> b[i] in KeysOf(w.fields))
    requires JoinFields(leq, v, a) + "}" + s == JoinFields(leq, w, b) + "}" + t
    ensures a == b && (forall i :: 0 <= i < |a| ==> SameAt(v, w, a[i])) && s == t
    decreases v, 0, |a|
  {
    FieldsEmptyAlike(leq, v, a, s);
    FieldsEmptyAlike(leq, w, b, t);
    if a == [] {
      assert JoinFields(leq, v, a) + "}" + s == "}" + s && JoinFields(leq, w, b) + "}" + t == "}" + t;
      Remainder("}", s, t);
      assert a == b;
    } else {
      var p, q := JoinFields(leq, v, a[1..]), JoinFields(leq, w, b[1..]);
      FieldReadable(leq, v, a, w, b, s, t);
      TailReadable(p, |a| == 1, q, |b| == 1, '}', s, t);
      if |a| > 1 {
        FieldsReadable(leq, v, a[1..], w, b[1..], s, t);
      }
      SameFromFirst(v, w, a, b);
    }
  }

  lemma SameFromFirst(v: Json, w: Json, a: seq<string>, b: seq<string>)
    requires v.Obj? && w.Obj? && a != [] && b != [] && a[0] == b[0] && a[1..] == b[1..] && SameAt(v, w, a[0])
    requires forall i :: 0 <= i < |a[1..]| ==> SameAt(v, w, a[1..][i])
    ensures a == b && forall i :: 0 <= i < |a| ==> SameAt(v, w, a[i])
  {
    assert a == [a[0]] + a[1..] && b == [b[0]] + b[1..];
    forall i | 0 <= i < |a| ensures SameAt(v, w, a[i]) {
      if i > 0 { assert a[i] == a[1..][i - 1]; }
    }
  }

  lemma UniqueKey(fields: seq<Field>, i: nat)
    requires NoDuplicates(KeysOf(fields)) && i < |fields|
    ensures fields[i].key in KeysOf(fields) && Find(fields, fields[i].key) == i
  {
    assert KeysOf(fields)[i] == fields[i].key;
    var j := Find(fields, fields[i].key);
    assert KeysOf(fields)[j] == fields[j].key;
  }

  /** The field texts of an object, in key order. */
  function Body(leq: (string, string) -> bool, v: Json): string
    requires v.Obj?
  {
    SortMembers(leq, KeysOf(v.fields));
    JoinFields(leq, v, SortedKeys(leq, v.fields))
  }

  lemma ObjectText(leq: (string, string) -> bool, v: Json, s: string)
    requires v.Obj?
    ensures StableJson(leq, v) + s == "{" + (Body(leq, v) + "}" + s)
  {}

  /** Objects whose sorted keys are the same and whose values agree at each of them. */
  lemma SameByKeys(leq: (string, string) -> bool, v: Json, w: Json)
    requires WellFormed(v) && WellFormed(w) && v.Obj? && w.Obj?
    requires SortedKeys(leq, v.fields) == SortedKeys(leq, w.fields)
    requires forall i :: 0 <= i < |SortedKeys(leq, v.fields)| ==> SameAt(v, w, SortedKeys(leq, v.fields)[i])
    ensures Same(v, w)
  {
    SortMembers(leq, KeysOf(v.fields));
    SortMembers(leq, KeysOf(w.fields));
    var a := SortedKeys(leq, v.fields);
    forall i, j | 0 <= i < |v.fields| && 0 <= j < |w.fields| && v.fields[i].key == w.fields[j].key
      ensures Same(v.fields[i].value, w.fields[j].value)
    {
      UniqueKey(v.fields, i);
      UniqueKey(w.fields, j);
      var key := v.fields[i].key;
      assert key in a;
      var k :| 0 <= k < |a| && a[k] == key;
      assert SameAt(v, w, a[k]);
    }
  }

  lemma {:induction false} ObjectReadable(leq: (string, string) -> bool, v: Json, w: Json, s: string, t: string)
    requires TotalOrder(leq) && WellFormed(v) && WellFormed(w) && v.Obj? && w.Obj?
    requires StableJson(leq, v) + s == StableJson(leq, w) + t
    ensures Same(v, w) && s == t
    decreases v, 1
  {
    SortMembers(leq, KeysOf(v.fields));
    SortMembers(leq, KeysOf(w.fields));
    ObjectText(leq, v, s);
    ObjectText(leq, w, t);
    Remainder("{", Body(leq, v) + "}" + s, Body(leq, w) + "}" + t);
    FieldsReadable(leq, v, SortedKeys(leq, v.fields), w, SortedKeys(leq, w.fields), s, t);
    SameByKeys(leq, v, w);
  }

  // --- Key-order invariance ---

  lemma {:induction false} PrintsAlike(leq: (string, string) -> bool, v: Json, w: Json)
    requires TotalOrder(leq) && WellFormed(v) && WellFormed(w) && Same(v, w)
    ensures StableJson(leq, v) == StableJson(leq, w)
    decreases v, 1, 0
  {
    match v
    case Arr(items) => ItemsPrintAlike(leq, v, items, w, w.items);
    case Obj(fields) =>
      SortMembers(leq, KeysOf(v.fields));
      SortMembers(leq, KeysOf(w.fields));
      SortNoDuplicates(leq, KeysOf(v.fields));
      SortNoDuplicates(leq, KeysOf(w.fields));
      SortSorted(leq, KeysOf(v.fields));
      SortSorted(leq, KeysOf(w.fields));
      SortedDeterminedBySet(leq, SortedKeys(leq, v.fields), SortedKeys(leq, w.fields));
      FieldsPrintAlike(leq, v, w, SortedKeys(leq, v.fields));
    case _ =>
  }

  lemma {:induction false} ItemsPrintAlike(leq: (string, string) -> bool, v: Json, a: seq<Json>, w: Json, b: seq<Json>)
    requires TotalOrder(leq) && WellFormed(v) && WellFormed(w)
    requires v.Arr? && (forall i :: 0 <= i < |a| ==> a[i] in v.items)
    requires w.Arr? && (forall i :: 0 <= i < |b| ==> b[i] in w.items)
    requires |a| == |b| && forall i :: 0 <= i < |a| ==> Same(a[i], b[i])
    ensures JoinItems(leq, v, a) == JoinItems(leq, w, b)
    decreases v, 0, |a|
  {
    if a != [] {
      PrintsAlike(leq, a[0], b[0]);
      ItemsPrintAlike(leq, v, a[1..], w, b[1..]);
    }
  }

  lemma {:induction false} FieldsPrintAlike(leq: (string, string) -> bool, v: Json, w: Json, keys: seq<string>)
    requires TotalOrder(leq) && WellFormed(v) && WellFormed(w) && v.Obj? && w.Obj? && Same(v, w)
    requires forall i :: 0 <= i < |keys| ==> keys[i] in KeysOf(v.fields) && keys[i] in KeysOf(w.fields)
    ensures JoinFields(leq, v, keys) == JoinFields(leq, w, keys)
    decreases v, 0, |keys|
  {
    if keys != [] {
      var i, j := Find(v.fields, keys[0]), Find(w.fields, keys[0]);
      PrintsAlike(leq, v.fields[i].value, w.fields[j].value);
      FieldsPrintAlike(leq, v, w, keys[1..]);
    }
  }

  // --- Main results ---

  /** Two JSON values print to the same text exactly when they are equal up to object key order, at
      every depth. */
  lemma CanonicalExactly(leq: (string, string) -> bool, v: Json, w: Json)
    requires TotalOrder(leq) && WellFormed(v) && WellFormed(w)
    ensures StableJson(leq, v) == StableJson(leq, w) <==> Same(v, w)
  {
    if StableJson(leq, v) == StableJson(leq, w) {
      Readable(leq, v, w, "", "");
    }
    if Same(v, w) {
      PrintsAlike(leq, v, w);
    }
  }

  function PolicyHash(hash: string -> string, leq: (string, string) -> bool, v: Json): string {
    hash(StableJson(leq, v))
  }

  /** Key order never changes the policy hash; and two values share it only if they are equal up to
      key order or the digest maps two different texts to one value. */
  lemma PolicyHashCanonical(hash: string -> string, leq: (string, string) -> bool, v: Json, w: Json)
    requires TotalOrder(leq) && WellFormed(v) && WellFormed(w)
    ensures Same(v, w) ==> PolicyHash(hash, leq, v) == PolicyHash(hash, leq, w)
    ensures PolicyHash(hash, leq, v) == PolicyHash(hash, leq, w)
       ==> Same(v, w) || exists a, b :: a != b && hash(a) == hash(b)
  {
    CanonicalExactly(leq, v, w);
    if PolicyHash(hash, leq, v) == PolicyHash(hash, leq, w) && !Same(v, w) {
      assert hash(StableJson(leq, v)) == hash(StableJson(leq, w));
    }
  }
}
