/** Reading one transcript line: which group it belongs to, and how it is shown. */
module TranscriptText {
  import opened Ordering

  datatype Group = Switchboard | Acurast

  // --- Escape sequences and the prefix ---

  const ESC: char := '\U{001B}'

  predicate IsAnsiBody(c: char) { '0' <= c <= '9' || c == ';' }

  function AnsiBodyLength(s: string): (n: nat)
    ensures n <= |s|
  {
    if s != "" && IsAnsiBody(s[0]) then 1 + AnsiBodyLength(s[1..]) else 0
  }

  /** The length of the escape sequence that the text starts with, or 0. */
  function AnsiLength(s: string): (n: nat)
    ensures n <= |s|
  {
    if |s| >= 2 && s[0] == ESC && s[1] == '[' then
      var n := AnsiBodyLength(s[2..]);
      if 2 + n < |s| && s[2 + n] == 'm' then 3 + n else 0
    else 0
  }

  function StripAnsi(s: string): string
    decreases |s|
  {
    if s == "" then ""
    else if AnsiLength(s) > 0 then StripAnsi(s[AnsiLength(s)..])
    else [s[0]] + StripAnsi(s[1..])
  }

  function SkipAnsi(s: string): string
    decreases |s|
  {
    if AnsiLength(s) > 0 then SkipAnsi(s[AnsiLength(s)..]) else s
  }

  const PREFIX: string := "[switchboard-deploy]"

  predicate IsSpace(c: char) {
    c == ' ' || '\t' <= c <= '\r' || c == '\U{00A0}' || c == '\U{1680}' || '\U{2000}' <= c <= '\U{200A}'
    || c == '\U{2028}' || c == '\U{2029}' || c == '\U{202F}' || c == '\U{205F}' || c == '\U{3000}' || c == '\U{FEFF}'
  }

  predicate StartsWithPrefix(s: string) {
    PREFIX <= s
  }

  function GroupOf(line: string): Group {
    if StartsWithPrefix(StripAnsi(line)) then Switchboard else Acurast
  }

  function StripPrefix(line: string): string {
    var s := SkipAnsi(line);
    if !StartsWithPrefix(s) then line
    else
      var rest := SkipAnsi(s[|PREFIX|..]);
      if rest != "" && IsSpace(rest[0]) then rest[1..] else rest
  }

  function Rendered(line: string): string {
    "  " + (if GroupOf(line) == Switchboard then StripPrefix(line) else line) + "\n"
  }

  // --- Prefixes ---

  lemma StripPlain(c: char, s: string)
    requires c != ESC
    ensures StripAnsi([c] + s) == [c] + StripAnsi(s)
  {
    assert ([c] + s)[0] == c && ([c] + s)[1..] == s;
  }

  lemma {:induction false} StripAnsiOver(p: string, rest: string)
    requires forall i :: 0 <= i < |p| ==> p[i] != ESC
    ensures StripAnsi(p + rest) == p + StripAnsi(rest)
  {
    if p == "" {
      assert p + rest == rest;
    } else {
      StripAnsiOver(p[1..], rest);
      StripPlain(p[0], p[1..] + rest);
      assert p + rest == [p[0]] + (p[1..] + rest) && p == [p[0]] + p[1..];
      ConcatAssociative([p[0]], p[1..], StripAnsi(rest));
    }
  }

  lemma {:induction false} StripSkipped(s: string)
    ensures StripAnsi(s) == StripAnsi(SkipAnsi(s))
    decreases |s|
  {
    if AnsiLength(s) > 0 {
      StripSkipped(s[AnsiLength(s)..]);
    }
  }

  lemma PrefixGroups(line: string, rest: string)
    requires SkipAnsi(line) == PREFIX + rest
    ensures GroupOf(line) == Switchboard
  {
    StripSkipped(line);
    StripAnsiOver(PREFIX, rest);
  }

  lemma PrefixStripped(line: string, rest: string, body: string)
    requires SkipAnsi(line) == PREFIX + rest && SkipAnsi(rest) == " " + body
    ensures StripPrefix(line) == body
  {
    assert (PREFIX + rest)[|PREFIX|..] == rest;
    assert (" " + body)[1..] == body;
  }

  /** Wherever the prefix is taken off a line (coloured or not), the line is in the Switchboard
      group; and the line is then shown without the prefix and the one space after it. */
  lemma PrefixMeansSwitchboard(line: string, rest: string, body: string)
    requires SkipAnsi(line) == PREFIX + rest && SkipAnsi(rest) == " " + body
    ensures GroupOf(line) == Switchboard && Rendered(line) == "  " + body + "\n"
  {
    PrefixGroups(line, rest);
    PrefixStripped(line, rest, body);
  }

  lemma {:induction false} NothingToStrip(line: string)
    requires ESC !in line
    ensures StripAnsi(line) == line && SkipAnsi(line) == line
  {
    if line != "" {
      assert line[0] in line && AnsiLength(line) == 0;
      NothingToStrip(line[1..]);
      assert line == [line[0]] + line[1..];
    }
  }

  /** A line without escape sequences is in the Switchboard group exactly when it starts with the
      prefix; it is shown without the prefix and one space, and every other line is shown whole. */
  lemma UncolouredLines(line: string, body: string)
    requires ESC !in line
    ensures GroupOf(line) == Switchboard <==> PREFIX <= line
    ensures !(PREFIX <= line) ==> Rendered(line) == "  " + line + "\n"
    ensures line == "[switchboard-deploy] " + body ==> Rendered(line) == "  " + body + "\n"
    ensures line == "[switchboard-deploy]\t" + body ==> Rendered(line) == "  " + body + "\n"
    ensures line == PREFIX + body && (body == "" || !IsSpace(body[0])) ==> Rendered(line) == "  " + body + "\n"
  {
    NothingToStrip(line);
    if PREFIX <= line {
      var rest := line[|PREFIX|..];
      assert forall c :: c in rest ==> c in line;
      NothingToStrip(rest);
      assert line == "[switchboard-deploy] " + body ==> rest == " " + body && rest[1..] == body;
      assert line == "[switchboard-deploy]\t" + body ==> rest == "\t" + body && rest[1..] == body;
      assert line == PREFIX + body ==> rest == body;
    }
  }

  // --- Escape sequences ---

  lemma {:induction false} BodyLengthOf(body: string, rest: string)
    requires (forall i :: 0 <= i < |body| ==> '0' <= body[i] <= '9' || body[i] == ';')
    requires rest != "" && !('0' <= rest[0] <= '9') && rest[0] != ';'
    ensures AnsiBodyLength(body + rest) == |body|
  {
    if body == "" {
      assert body + rest == rest;
    } else {
      assert (body + rest)[0] == body[0] && (body + rest)[1..] == body[1..] + rest;
      BodyLengthOf(body[1..], rest);
    }
  }

  /** An escape character, a bracket, digits and semicolons, and an m. */
  function Colour(body: string): string {
    [0x1B as char, '['] + body + ['m']
  }

  /** A colour sequence is skipped as a whole, wherever it stands. */
  lemma ColourIsSkipped(body: string, rest: string)
    requires forall i :: 0 <= i < |body| ==> '0' <= body[i] <= '9' || body[i] == ';'
    ensures StripAnsi(Colour(body) + rest) == StripAnsi(rest) && SkipAnsi(Colour(body) + rest) == SkipAnsi(rest)
  {
    var s := Colour(body) + rest;
    BodyLengthOf(body, ['m'] + rest);
    assert s[2..] == body + (['m'] + rest);
    assert s[2 + |body|] == 'm' && AnsiLength(s) == 3 + |body|;
    assert s[3 + |body|..] == rest;
  }

  /** A coloured prefix counts like a plain one and is taken off with its colours and one space. */
  lemma ColouredPrefix(before: string, after: string, body: string)
    requires forall i :: 0 <= i < |before| ==> '0' <= before[i] <= '9' || before[i] == ';'
    requires forall i :: 0 <= i < |after| ==> '0' <= after[i] <= '9' || after[i] == ';'
    ensures var line := Colour(before) + ("[switchboard-deploy]" + (Colour(after) + (" " + body)));
      GroupOf(line) == Switchboard && Rendered(line) == "  " + body + "\n"
  {
    var rest := Colour(after) + (" " + body);
    ColourIsSkipped(before, PREFIX + rest);
    ColourIsSkipped(after, " " + body);
    assert (PREFIX + rest)[0] == '[' && (" " + body)[0] == ' ';
    PrefixMeansSwitchboard(Colour(before) + (PREFIX + rest), rest, body);
  }
}
