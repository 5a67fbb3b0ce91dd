/** The whole env upsert: what one run and a second run make of the deployment env files. */
module EnvUpsert {
  import opened Wrappers
  import opened Ordering
  import opened EnvText
  import opened EnvFile
  import opened EnvUpdates

  // --- A second pass over the lines ---

  lemma {:induction false} KeptAgain(lines: seq<string>, values: map<string, string>)
    requires forall i :: 0 <= i < |lines| ==> NewLine(lines[i], values) == lines[i]
    ensures Kept(lines, values) == lines
  {
    if lines != [] {
      KeptAgain(lines[..|lines| - 1], values);
      assert lines == lines[..|lines| - 1] + [lines[|lines| - 1]];
    }
  }

  lemma {:induction false} AppendedSettled(keys: seq<string>, values: map<string, string>, seen: set<string>)
    requires forall k :: k in keys ==> k in values && GoodKey(k)
    ensures forall i :: 0 <= i < |Appended(keys, values, seen)| ==>
      NewLine(Appended(keys, values, seen)[i], values) == Appended(keys, values, seen)[i]
  {
    if keys != [] {
      AppendedSettled(keys[..|keys| - 1], values, seen);
      LineParts(keys[|keys| - 1], values[keys[|keys| - 1]]);
    }
  }

  lemma {:induction false} AppendedFiltered(keys: seq<string>, values: map<string, string>, a: set<string>, b: set<string>)
    requires forall k :: k in keys ==> k in values
    requires forall k :: k in keys ==> (k in a <==> k in b)
    ensures Appended(keys, values, a) == Appended(keys, values, b)
  {
    if keys != [] {
      AppendedFiltered(keys[..|keys| - 1], values, a, b);
    }
  }

  /** A second pass over the lines keeps them all and appends, once more, exactly the keys that look
      like comments. */
  lemma SecondPassAppends(lines: seq<string>, d: Dict)
    requires IsDict(d)
    ensures Upserted(Upserted(lines, d), d) == Upserted(lines, d) + Appended(d.keys, d.values, Visible(d.values).Keys)
  {
    var out := Upserted(lines, d);
    KeptEach(lines, d.values);
    AppendedSettled(d.keys, d.values, Seen(lines, d.values));
    forall i | 0 <= i < |out| ensures NewLine(out[i], d.values) == out[i] {
      if i < |lines| { NewLineTwice(lines[i], d.values); }
    }
    KeptAgain(out, d.values);
    SeenExactly(out, d.values);
    RereadingLines(lines, d);
    AssignedKeys(lines);
    AppendedFiltered(d.keys, d.values, Seen(out, d.values), Visible(d.values).Keys);
  }

  lemma {:induction false} AppendedNothing(keys: seq<string>, values: map<string, string>, seen: set<string>)
    requires forall k :: k in keys ==> k in values
    ensures Appended(keys, values, seen) == [] <==> forall k :: k in keys ==> k in seen
  {
    if keys != [] {
      AppendedNothing(keys[..|keys| - 1], values, seen);
      assert forall k :: k in keys <==> k in keys[..|keys| - 1] || k == keys[|keys| - 1];
    }
  }

  // --- Lines and text ---

  /** What is read back after a line is written. */
  function Pieces(line: string): (pieces: seq<string>)
    ensures |pieces| >= 1
  {
    var n := FirstBreak(line);
    if n == |line| then [line] else [line[..n]] + Pieces(line[n + 1..])
  }

  lemma {:induction false} PiecesExactly(line: string)
    ensures |Pieces(line)| == 1 <==> Unbroken(line)
    ensures Unbroken(line) ==> Pieces(line) == [line]
  {
    var n := FirstBreak(line);
    if n == |line| { assert line[..n] == line; }
  }

  lemma {:induction false} FirstBreakIs(head: string, c: char, rest: string)
    requires Unbroken(head) && IsBreak(c)
    ensures FirstBreak(head + [c] + rest) == |head|
  {
    if head != "" {
      assert (head + [c] + rest)[1..] == head[1..] + [c] + rest;
      FirstBreakIs(head[1..], c, rest);
    }
  }

  lemma SplitAt(head: string, c: char, rest: string)
    requires Unbroken(head) && IsBreak(c)
    ensures SplitLines(head + [c] + rest) == [head] + SplitLines(rest)
  {
    var text := head + [c] + rest;
    FirstBreakIs(head, c, rest);
    assert text[..|head|] == head && text[|head| + 1..] == rest;
  }

  lemma Regroup(a: string, c: char, b: string, rest: string)
    ensures (a + [c] + b) + "\n" + rest == a + [c] + (b + "\n" + rest)
  {
  }

  lemma {:induction false} SplitWritten(line: string, rest: string)
    ensures SplitLines(line + "\n" + rest) == Pieces(line) + SplitLines(rest)
    decreases |line|
  {
    var n := FirstBreak(line);
    if n == |line| {
      assert line[..n] == line;
      SplitAt(line, '\n', rest);
    } else {
      var head, tail := line[..n], line[n + 1..];
      assert line == head + [line[n]] + tail;
      SplitWritten(tail, rest);
      SplitAt(head, line[n], tail + "\n" + rest);
      Regroup(head, line[n], tail, rest);
      ConcatAssociative([head], Pieces(tail), SplitLines(rest));
    }
  }

  function AllPieces(lines: seq<string>): seq<string> {
    if lines == [] then [] else Pieces(lines[0]) + AllPieces(lines[1..])
  }

  lemma {:induction false} SplitFileText(lines: seq<string>)
    requires lines != []
    ensures SplitLines(FileText(lines)) == AllPieces(lines)
  {
    if |lines| == 1 {
      SplitWritten(lines[0], "");
      assert FileText(lines) == lines[0] + "\n" + "";
      assert AllPieces(lines[1..]) == [];
    } else {
      SplitFileText(lines[1..]);
      SplitWritten(lines[0], FileText(lines[1..]));
      assert FileText(lines) == lines[0] + "\n" + FileText(lines[1..]);
    }
  }

  ghost predicate AllUnbroken(lines: seq<string>) {
    forall i :: 0 <= i < |lines| ==> Unbroken(lines[i])
  }

  lemma {:induction false} AllPiecesExactly(lines: seq<string>)
    ensures |AllPieces(lines)| >= |lines|
    ensures |AllPieces(lines)| == |lines| <==> AllUnbroken(lines)
    ensures AllUnbroken(lines) ==> AllPieces(lines) == lines
  {
    if lines != [] {
      AllPiecesExactly(lines[1..]);
      PiecesExactly(lines[0]);
      assert AllUnbroken(lines) <==> Unbroken(lines[0]) && AllUnbroken(lines[1..]) by {
        assert forall i :: 0 <= i < |lines| - 1 ==> lines[1..][i] == lines[i + 1];
        assert forall i :: 1 <= i < |lines| ==> lines[1..][i - 1] == lines[i];
      }
      assert lines == [lines[0]] + lines[1..];
    }
  }

  lemma {:induction false} SplitUnbroken(text: string)
    ensures AllUnbroken(SplitLines(text))
    decreases |text|
  {
    if text != "" && FirstBreak(text) < |text| {
      SplitUnbroken(text[FirstBreak(text) + 1..]);
    } else {
      assert text[..FirstBreak(text)] == text;
    }
  }

  /** Written lines are read back as they were exactly when none of them holds a line break. */
  lemma LinesRoundTripExactly(lines: seq<string>)
    requires lines != []
    ensures SplitLines(FileText(lines)) == lines <==> AllUnbroken(lines)
  {
    SplitFileText(lines);
    AllPiecesExactly(lines);
  }

  /** Every line ends with a newline in the file. */
  lemma FileTextIs(line: string, more: seq<string>)
    ensures FileText([line]) == line + ['\n']
    ensures more != [] ==> FileText([line] + more) == line + ['\n'] + FileText(more)
  {
    if more != [] {
      assert ([line] + more)[1..] == more;
      assert Joined([line] + more) == line + "\n" + Joined(more);
    }
  }

  /** How a text falls into lines: an unbroken text is one line, an empty one is none, and the first
      break ends the first line. */
  lemma SplitLinesIs(head: string, c: char, rest: string)
    requires Unbroken(head)
    ensures SplitLines("") == [] && (head != "" ==> SplitLines(head) == [head])
    ensures IsBreak(c) ==> SplitLines(head + [c] + rest) == [head] + SplitLines(rest)
  {
    if IsBreak(c) {
      SplitAt(head, c, rest);
    }
  }

  // --- One file ---

  function UpsertText(text: string, d: Dict): string
    requires IsDict(d)
  {
    FileText(Upserted(SplitLines(text), d))
  }

  /** The updates an env file can hold: no key looks like a comment, and neither keys nor values hold
      line breaks. */
  ghost predicate Plain(d: Dict) {
    forall k :: k in d.values ==> !LooksLikeComment(k) && Unbroken(k) && Unbroken(d.values[k])
  }

  lemma UpsertedSome(lines: seq<string>, d: Dict)
    requires IsDict(d) && d.keys != []
    ensures Upserted(lines, d) != []
  {
    KeptEach(lines, d.values);
    if lines == [] {
      AppendedNothing(d.keys, d.values, Seen(lines, d.values));
      assert d.keys[0] in d.keys && d.keys[0] !in Seen(lines, d.values);
    }
  }

  lemma UnbrokenLineFor(key: string, value: string)
    ensures Unbroken(LineFor(key, value)) <==> Unbroken(key) && Unbroken(value)
  {
    var line := LineFor(key, value);
    assert forall i :: 0 <= i < |key| ==> line[i] == key[i];
    assert forall i :: 0 <= i < |value| ==> line[|key| + 1 + i] == value[i];
    assert forall i :: |key| < i < |line| ==> line[i] == value[i - |key| - 1];
  }

  lemma {:induction false} AppendedUnbroken(keys: seq<string>, values: map<string, string>, seen: set<string>)
    requires forall k :: k in keys ==> k in values && Unbroken(k) && Unbroken(values[k])
    ensures AllUnbroken(Appended(keys, values, seen))
  {
    if keys != [] {
      AppendedUnbroken(keys[..|keys| - 1], values, seen);
      UnbrokenLineFor(keys[|keys| - 1], values[keys[|keys| - 1]]);
    }
  }

  lemma UpsertedUnbroken(text: string, d: Dict)
    requires IsDict(d) && Plain(d)
    ensures AllUnbroken(Upserted(SplitLines(text), d))
  {
    var lines := SplitLines(text);
    SplitUnbroken(text);
    KeptEach(lines, d.values);
    forall i | 0 <= i < |lines| ensures Unbroken(NewLine(lines[i], d.values)) {
      if IsAssignment(lines[i]) && KeyOf(lines[i]) in d.values {
        UnbrokenLineFor(KeyOf(lines[i]), d.values[KeyOf(lines[i])]);
      }
    }
    AppendedUnbroken(d.keys, d.values, Seen(lines, d.values));
  }

  lemma {:induction false} AssignmentsUnbroken(lines: seq<string>)
    requires AllUnbroken(lines)
    ensures forall k :: k in Assignments(lines) ==> !LooksLikeComment(k) && Unbroken(k) && Unbroken(Assignments(lines)[k])
  {
    if lines != [] {
      var n := |lines| - 1;
      AssignmentsUnbroken(lines[..n]);
      if IsAssignment(lines[n]) {
        AssignmentParts(lines[n]);
        UnbrokenLineFor(KeyOf(lines[n]), ValueOf(lines[n]));
      }
    }
  }

  lemma PlainUpdatesOverride(text: string, d: Dict)
    requires IsDict(d) && d.keys != [] && Plain(d)
    ensures SplitLines(UpsertText(text, d)) == Upserted(SplitLines(text), d)
    ensures Assignments(SplitLines(UpsertText(text, d))) == Assignments(SplitLines(text)) + d.values
  {
    UpsertedSome(SplitLines(text), d);
    UpsertedUnbroken(text, d);
    LinesRoundTripExactly(Upserted(SplitLines(text), d));
    RereadingLines(SplitLines(text), d);
    assert Visible(d.values) == d.values;
  }

  /** Re-reading the rewritten file gives the old assignments overwritten by the updates exactly when
      the updates are plain. */
  lemma RereadingExactly(text: string, d: Dict)
    requires IsDict(d) && d.keys != []
    ensures Assignments(SplitLines(UpsertText(text, d))) == Assignments(SplitLines(text)) + d.values <==> Plain(d)
  {
    if Plain(d) {
      PlainUpdatesOverride(text, d);
    }
    SplitUnbroken(UpsertText(text, d));
    AssignmentsUnbroken(SplitLines(UpsertText(text, d)));
    if Assignments(SplitLines(UpsertText(text, d))) == Assignments(SplitLines(text)) + d.values {
      forall k | k in d.values ensures !LooksLikeComment(k) && Unbroken(k) && Unbroken(d.values[k]) {
        assert k in Assignments(SplitLines(UpsertText(text, d)));
        assert (Assignments(SplitLines(text)) + d.values)[k] == d.values[k];
      }
    }
  }

  lemma {:induction false} SeenIsWritten(lines: seq<string>, values: map<string, string>, k: string)
    requires k in Seen(lines, values)
    ensures k in values && LineFor(k, values[k]) in Kept(lines, values)
  {
    var n := |lines| - 1;
    assert Kept(lines, values)[|Kept(lines, values)| - 1] == NewLine(lines[n], values);
    if !(IsAssignment(lines[n]) && KeyOf(lines[n]) == k && k in values) {
      SeenIsWritten(lines[..n], values, k);
    }
  }

  lemma UnchangedMeansPlain(text: string, d: Dict)
    requires IsDict(d) && d.keys != []
    requires UpsertText(UpsertText(text, d), d) == UpsertText(text, d)
    ensures Plain(d)
  {
    var lines := SplitLines(UpsertText(text, d));
    var out := Upserted(lines, d);
    UpsertedSome(lines, d);
    SplitFileText(out);
    AllPiecesExactly(out);
    KeptEach(lines, d.values);
    AppendedNothing(d.keys, d.values, Seen(lines, d.values));
    SeenExactly(lines, d.values);
    AssignedKeys(lines);
    forall k | k in d.values ensures !LooksLikeComment(k) && Unbroken(k) && Unbroken(d.values[k]) {
      SeenIsWritten(lines, d.values, k);
      assert LineFor(k, d.values[k]) in out;
      UnbrokenLineFor(k, d.values[k]);
    }
  }

  /** A second run changes nothing exactly when the updates are plain. */
  lemma SecondRunChangesNothingExactly(text: string, d: Dict)
    requires IsDict(d) && d.keys != []
    ensures UpsertText(UpsertText(text, d), d) == UpsertText(text, d) <==> Plain(d)
  {
    if Plain(d) {
      PlainUpdatesOverride(text, d);
      SecondPassAppends(SplitLines(text), d);
      assert Visible(d.values) == d.values;
      AppendedNothing(d.keys, d.values, Visible(d.values).Keys);
      assert Upserted(Upserted(SplitLines(text), d), d) == Upserted(SplitLines(text), d);
    }
    if UpsertText(UpsertText(text, d), d) == UpsertText(text, d) {
      UnchangedMeansPlain(text, d);
    }
  }

  /** A key that looks like a comment is accepted, and appended again by every run. */
  lemma CommentKeyPilesUp(key: string, value: string)
    requires GoodKey(key) && LooksLikeComment(key) && Unbroken(key) && Unbroken(value)
    ensures var d, line := Dict([key], map[key := value]), LineFor(key, value);
      && IsDict(d)
      && UpsertText("", d) == FileText([line])
      && UpsertText(UpsertText("", d), d) == FileText([line, line])
  {
    var d, line := Dict([key], map[key := value]), LineFor(key, value);
    assert Visible(d.values) == map[] && Seen([], d.values) == {};
    OneAppended(key, d.values);
    assert Upserted([], d) == [line];
    UnbrokenLineFor(key, value);
    LinesRoundTripExactly([line]);
    SecondPassAppends([], d);
    assert Upserted([line], d) == [line, line];
  }

  lemma OneAppended(key: string, values: map<string, string>)
    requires key in values
    ensures Appended([key], values, {}) == [LineFor(key, values[key])]
  {
    assert [key][..0] == [];
  }

  // --- Where the lines go ---

  function LinesFor(keys: seq<string>, values: map<string, string>): seq<string>
    requires forall k :: k in keys ==> k in values
  {
    if keys == [] then [] else LinesFor(keys[..|keys| - 1], values) + [LineFor(keys[|keys| - 1], values[keys[|keys| - 1]])]
  }

  /** The keys, in order, that the lines do not assign. */
  function Missing(keys: seq<string>, lines: seq<string>): seq<string> {
    Filter((k: string) => k !in Assignments(lines), keys)
  }

  lemma LinesForOneMore(keys: seq<string>, k: string, values: map<string, string>)
    requires k in values && forall h :: h in keys ==> h in values
    ensures LinesFor(keys + [k], values) == LinesFor(keys, values) + [LineFor(k, values[k])]
  {
    assert (keys + [k])[..|keys + [k]| - 1] == keys;
  }

  lemma {:induction false} FilterOneMore(p: string -> bool, keys: seq<string>)
    requires keys != []
    ensures Filter(p, keys) == Filter(p, keys[..|keys| - 1]) + if p(keys[|keys| - 1]) then [keys[|keys| - 1]] else []
  {
    var last := [keys[|keys| - 1]];
    FilterConcat(p, keys[..|keys| - 1], last);
    assert keys == keys[..|keys| - 1] + last;
    assert Filter(p, last[1..]) == [];
  }

  lemma {:induction false} AppendedFilter(keys: seq<string>, values: map<string, string>, seen: set<string>, p: string -> bool)
    requires forall k :: k in keys ==> k in values
    requires forall k :: k in keys ==> (p(k) <==> k !in seen)
    ensures forall k :: k in Filter(p, keys) ==> k in values
    ensures Appended(keys, values, seen) == LinesFor(Filter(p, keys), values)
  {
    FilterMembers(p, keys);
    if keys != [] {
      var n := |keys| - 1;
      AppendedFilter(keys[..n], values, seen, p);
      FilterOneMore(p, keys);
      assert keys[n] in keys;
      if p(keys[n]) {
        LinesForOneMore(Filter(p, keys[..n]), keys[n], values);
      } else {
        assert Filter(p, keys) == Filter(p, keys[..n]);
      }
    }
  }

  /** Comments and unrelated lines keep their text and place, every assignment of an updated key is
      rewritten in place, and the keys that had none follow once each, in update order. */
  lemma LinesInPlace(lines: seq<string>, d: Dict)
    requires IsDict(d)
    ensures var out := Upserted(lines, d);
      && |out| >= |lines|
      && (forall i :: 0 <= i < |lines| && (!IsAssignment(lines[i]) || KeyOf(lines[i]) !in d.values) ==> out[i] == lines[i])
      && (forall i :: 0 <= i < |lines| && IsAssignment(lines[i]) && KeyOf(lines[i]) in d.values
            ==> out[i] == LineFor(KeyOf(lines[i]), d.values[KeyOf(lines[i])]))
      && NoDuplicates(Missing(d.keys, lines)) && (forall k :: k in Missing(d.keys, lines) ==> k in d.values)
      && out[|lines|..] == LinesFor(Missing(d.keys, lines), d.values)
  {
    KeptEach(lines, d.values);
    SeenExactly(lines, d.values);
    AppendedFiltered(d.keys, d.values, Seen(lines, d.values), Assignments(lines).Keys);
    AppendedFilter(d.keys, d.values, Assignments(lines).Keys, (k: string) => k !in Assignments(lines));
    FilterNoDuplicates((k: string) => k !in Assignments(lines), d.keys);
  }

  // --- The script over its files ---

  function TextOf(files: map<string, string>, name: string): Option<string> {
    if name in files then Some(files[name]) else None
  }

  /** What a file holds after a run; a group without updates is not touched, nor created. */
  function FileAfter(before: Option<string>, d: Dict): Option<string>
    requires IsDict(d)
  {
    if d.keys == [] then before else Some(UpsertText(if before.Some? then before.value else "", d))
  }

  /** The files of the groups that are done hold what the run makes of them; everything else is as
      it was. */
  ghost predicate FilesDone(before: map<string, string>, after: map<string, string>, input: seq<string>, done: seq<string>) {
    forall name :: TextOf(after, name) == if name in done then ExpectedAfter(before, input, name) else TextOf(before, name)
  }

  ghost predicate FilesAfter(before: map<string, string>, after: map<string, string>, input: seq<string>) {
    FilesDone(before, after, input, Groups)
  }

  function ExpectedAfter(before: map<string, string>, input: seq<string>, name: string): Option<string> {
    FileAfter(TextOf(before, name), UpdatesFor(input, name))
  }

  lemma OneMoreDone(before: map<string, string>, files: map<string, string>, after: map<string, string>, input: seq<string>,
                    done: seq<string>, group: string)
    requires FilesDone(before, files, input, done) && group !in done
    requires TextOf(after, group) == ExpectedAfter(before, input, group)
    requires forall name :: name != group ==> TextOf(after, name) == TextOf(files, name)
    ensures FilesDone(before, after, input, done + [group])
  {
  }

  lemma GroupsDiffer(n: nat)
    requires n < |Groups|
    ensures Groups[n] !in Groups[..n] && Groups[..n + 1] == Groups[..n] + [Groups[n]]
  {
    assert "control"[0] != "operator"[0] && "control"[0] != "explorer"[0] && "operator"[0] != "explorer"[0];
  }

  class EnvFiles {
    /** The files that exist, by group. */
    var files: map<string, string>

    /** A refused line leaves every file as it was, even when good lines come before it. */
    method Upsert(input: seq<string>) returns (refused: Option<Error>)
      modifies this
      ensures refused.None? <==> NoneRefused(input, |input|)
      ensures refused.None? ==> FilesAfter(old(files), files, input)
      ensures refused.Some? ==> files == old(files)
      ensures refused.Some? ==> FirstRefusal(input, refused.value)
    {
      var collected := CollectUpdates(input);
      if collected.Failure? {
        return Some(collected.error);
      }
      for n := 0 to |Groups|
        invariant FilesDone(old(files), files, input, Groups[..n])
      {
        ghost var before := files;
        UpsertGroup(Groups[n], collected.value[Groups[n]]);
        GroupsDiffer(n);
        OneMoreDone(old(files), before, files, input, Groups[..n], Groups[n]);
      }
      assert Groups[..|Groups|] == Groups;
      return None;
    }

    method UpsertGroup(group: string, updates: Dict)
      requires IsDict(updates)
      modifies this
      ensures TextOf(files, group) == FileAfter(TextOf(old(files), group), updates)
      ensures forall name :: name != group ==> TextOf(files, name) == TextOf(old(files), name)
    {
      if |updates.keys| == 0 { return; }
      var existing := if group in files then SplitLines(files[group]) else [];
      var nextLines := UpsertLines(existing, updates);
      files := files[group := FileText(nextLines)];
    }
  }

  ghost predicate PlainInput(input: seq<string>) {
    forall group :: group in Groups ==> Plain(UpdatesFor(input, group))
  }

  lemma OneLineCollected(group: string, key: string, value: string)
    requires group in Groups && GoodKey(key) && '\t' !in key
    ensures var input := [InputLine(group, key, value)];
      NoneRefused(input, 1) && UpdatesFor(input, group) == Dict([key], map[key := value])
  {
    var input := [InputLine(group, key, value)];
    InputLineIsAccepted(1, group, key, value);
    CollectedOneMore(input, 0, group);
    assert input[..1] == input && input[..0] == [];
  }

  /** An accepted line whose update an env file cannot hold. */
  lemma UnholdableLine(group: string, key: string, value: string)
    requires group in Groups && GoodKey(key) && '\t' !in key
    requires LooksLikeComment(key) || !Unbroken(key) || !Unbroken(value)
    ensures var line := InputLine(group, key, value);
      ParseLine(1, line) == Success(Entry(group, key, value)) && NoneRefused([line], 1) && !PlainInput([line])
  {
    InputLineIsAccepted(1, group, key, value);
    OneLineCollected(group, key, value);
    var d := UpdatesFor([InputLine(group, key, value)], group);
    assert key in d.values && d.values[key] == value;
  }

  /** A concrete line with a comment-like key. */
  lemma CommentedKeyIsAccepted()
    ensures var line := "control\t#A\t1";
      ParseLine(1, line) == Success(Entry("control", "#A", "1")) && NoneRefused([line], 1) && !PlainInput([line])
  {
    assert "control\t#A\t1" == InputLine("control", "#A", "1");
    UnholdableLine("control", "#A", "1");
  }

  /** A concrete line whose value holds a line separator other than the newline. */
  lemma BrokenValueIsAccepted()
    ensures var line := "control\tA\tx\U{2028}y";
      ParseLine(1, line) == Success(Entry("control", "A", "x\U{2028}y")) && NoneRefused([line], 1) && !PlainInput([line])
  {
    assert "control\tA\tx\U{2028}y" == InputLine("control", "A", "x\U{2028}y");
    assert IsBreak("x\U{2028}y"[1]);
    UnholdableLine("control", "A", "x\U{2028}y");
  }

  lemma SameFiles(a: map<string, string>, b: map<string, string>)
    ensures a == b <==> forall name :: TextOf(a, name) == TextOf(b, name)
  {
    if forall name :: TextOf(a, name) == TextOf(b, name) {
      forall name ensures name in a <==> name in b { assert TextOf(a, name) == TextOf(b, name); }
      forall name | name in a ensures a[name] == b[name] { assert TextOf(a, name) == TextOf(b, name); }
      assert a == b;
    }
  }

  /** What one run leaves in the files: the old assignments overwritten by the group's updates where it
      has plain ones, and everything else as it was. */
  lemma RunOverrides(before: map<string, string>, after: map<string, string>, input: seq<string>, name: string)
    requires FilesAfter(before, after, input)
    ensures name !in Groups || UpdatesFor(input, name).keys == [] ==> TextOf(after, name) == TextOf(before, name)
    ensures name in Groups && UpdatesFor(input, name).keys != [] && Plain(UpdatesFor(input, name)) ==>
      && name in after
      && Assignments(SplitLines(after[name]))
         == Assignments(SplitLines(if name in before then before[name] else "")) + UpdatesFor(input, name).values
  {
    assert TextOf(after, name) == if name in Groups then ExpectedAfter(before, input, name) else TextOf(before, name);
    if name in Groups && UpdatesFor(input, name).keys != [] {
      RereadingExactly(if name in before then before[name] else "", UpdatesFor(input, name));
    }
  }

  lemma RerunOneFile(before: Option<string>, d: Dict)
    requires IsDict(d)
    ensures FileAfter(FileAfter(before, d), d) == FileAfter(before, d) <==> Plain(d)
  {
    if d.keys != [] {
      SecondRunChangesNothingExactly(if before.Some? then before.value else "", d);
    } else {
      assert forall k :: k !in d.values;
    }
  }

  /** Running the script again on the same input changes no file exactly when the input is plain. */
  lemma RerunChangesNothingExactly(before: map<string, string>, once: map<string, string>, twice: map<string, string>,
                                   input: seq<string>)
    requires FilesAfter(before, once, input) && FilesAfter(once, twice, input)
    ensures twice == once <==> PlainInput(input)
  {
    SameFiles(twice, once);
    forall name
      ensures TextOf(twice, name) == TextOf(once, name) <==> name !in Groups || Plain(UpdatesFor(input, name))
    {
      RerunOneFile(TextOf(before, name), UpdatesFor(input, name));
    }
  }
}
