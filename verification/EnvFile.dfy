/** The text of an env file: its lines, and what upserting a set of keys makes of it. */
module EnvFile {
  import opened Ordering
  import opened EnvText

  predicate IsSpace(c: char) {
    '\U{9}' <= c <= '\U{D}' || '\U{1C}' <= c <= '\U{20}' || c == '\U{85}' || c == '\U{A0}' || c == '\U{1680}'
    || '\U{2000}' <= c <= '\U{200A}' || c == '\U{2028}' || c == '\U{2029}' || c == '\U{202F}' || c == '\U{205F}' || c == '\U{3000}'
  }

  /** The characters at which a text is split into lines. */
  predicate IsBreak(c: char) {
    '\U{A}' <= c <= '\U{D}' || '\U{1C}' <= c <= '\U{1E}' || c == '\U{85}' || c == '\U{2028}' || c == '\U{2029}'
  }

  predicate Unbroken(s: string) {
    forall i :: 0 <= i < |s| ==> !IsBreak(s[i])
  }

  function SplitLines(text: string): seq<string> {
    if text == "" then []
    else
      var n := FirstBreak(text);
      if n == |text| then [text] else [text[..n]] + SplitLines(text[n + 1..])
  }

  function FirstBreak(s: string): (n: nat)
    ensures n <= |s| && Unbroken(s[..n]) && (n < |s| ==> IsBreak(s[n]))
  {
    if s == "" || IsBreak(s[0]) then 0
    else
      var m := FirstBreak(s[1..]);
      assert s[..m + 1] == [s[0]] + s[1..][..m];
      m + 1
  }

  function Joined(lines: seq<string>): string {
    if lines == [] then "" else if |lines| == 1 then lines[0] else lines[0] + "\n" + Joined(lines[1..])
  }

  function FileText(lines: seq<string>): string {
    Joined(lines) + "\n"
  }

  /** After leading white space comes a hash sign. */
  predicate LooksLikeComment(s: string) {
    s != "" && (s[0] == '#' || (IsSpace(s[0]) && LooksLikeComment(s[1..])))
  }

  // --- Lines of an env file ---

  predicate IsAssignment(line: string) {
    line != "" && !LooksLikeComment(line) && '=' in line
  }

  function KeyOf(line: string): string {
    line[..FirstIndex(line, '=')]
  }

  function ValueOf(line: string): string
    requires '=' in line
  {
    line[FirstIndex(line, '=') + 1..]
  }

  function LineFor(key: string, value: string): string {
    key + "=" + value
  }

  /** What a reader of the file gets: the last assignment of a key wins. */
  function Assignments(lines: seq<string>): map<string, string> {
    if lines == [] then map[]
    else
      var n := |lines| - 1;
      var before := Assignments(lines[..n]);
      if IsAssignment(lines[n]) then before[KeyOf(lines[n]) := ValueOf(lines[n])] else before
  }

  // --- Upserting ---

  /** What a line of the file becomes. */
  function NewLine(line: string, values: map<string, string>): string {
    if IsAssignment(line) && KeyOf(line) in values then LineFor(KeyOf(line), values[KeyOf(line)]) else line
  }

  function Kept(lines: seq<string>, values: map<string, string>): seq<string> {
    if lines == [] then []
    else Kept(lines[..|lines| - 1], values) + [NewLine(lines[|lines| - 1], values)]
  }

  function Seen(lines: seq<string>, values: map<string, string>): set<string> {
    if lines == [] then {}
    else
      var n := |lines| - 1;
      Seen(lines[..n], values) + if IsAssignment(lines[n]) && KeyOf(lines[n]) in values then {KeyOf(lines[n])} else {}
  }

  function Appended(keys: seq<string>, values: map<string, string>, seen: set<string>): seq<string>
    requires forall k :: k in keys ==> k in values
  {
    if keys == [] then []
    else
      var n := |keys| - 1;
      Appended(keys[..n], values, seen) + if keys[n] in seen then [] else [LineFor(keys[n], values[keys[n]])]
  }

  function Upserted(lines: seq<string>, d: Dict): seq<string>
    requires forall k :: k in d.keys ==> k in d.values
  {
    Kept(lines, d.values) + Appended(d.keys, d.values, Seen(lines, d.values))
  }

  method UpsertLines(existing: seq<string>, d: Dict) returns (nextLines: seq<string>)
    requires IsDict(d)
    ensures nextLines == Upserted(existing, d)
  {
    var seen: set<string> := {};
    nextLines := [];
    for i := 0 to |existing|
      invariant nextLines == Kept(existing[..i], d.values) && seen == Seen(existing[..i], d.values)
    {
      assert existing[..i + 1][..i] == existing[..i];
      var line := existing[i];
      if line == "" || LooksLikeComment(line) || '=' !in line {
        nextLines := nextLines + [line];
        continue;
      }
      var key := KeyOf(line);
      if key in d.values {
        nextLines := nextLines + [LineFor(key, d.values[key])];
        seen := seen + {key};
      } else {
        nextLines := nextLines + [line];
      }
    }
    assert existing[..|existing|] == existing;
    ghost var kept := nextLines;
    for i := 0 to |d.keys|
      invariant nextLines == kept + Appended(d.keys[..i], d.values, seen)
    {
      assert d.keys[..i + 1][..i] == d.keys[..i];
      var key := d.keys[i];
      if key !in seen {
        nextLines := nextLines + [LineFor(key, d.values[key])];
      }
    }
    assert d.keys[..|d.keys|] == d.keys;
  }

  // --- Written lines ---

  lemma LineParts(key: string, value: string)
    requires GoodKey(key)
    ensures var line := LineFor(key, value);
      '=' in line && KeyOf(line) == key && ValueOf(line) == value && (IsAssignment(line) <==> !LooksLikeComment(key))
  {
    FirstIndexIs(key, '=', value);
    assert LineFor(key, value) == key + ['='] + value;
    CommentPrefix(key, value);
  }

  lemma {:induction false} CommentPrefix(key: string, value: string)
    ensures LooksLikeComment(LineFor(key, value)) <==> LooksLikeComment(key)
  {
    if key != "" {
      assert LineFor(key, value)[1..] == LineFor(key[1..], value);
      CommentPrefix(key[1..], value);
    }
  }

  lemma AssignmentParts(line: string)
    requires IsAssignment(line)
    ensures '=' !in KeyOf(line) && line == LineFor(KeyOf(line), ValueOf(line)) && !LooksLikeComment(KeyOf(line))
  {
    CommentPrefix(KeyOf(line), ValueOf(line));
  }

  /** Upserting rewrites a line once and for all. */
  lemma NewLineTwice(line: string, values: map<string, string>)
    requires forall k :: k in values ==> GoodKey(k)
    ensures NewLine(NewLine(line, values), values) == NewLine(line, values)
  {
    if IsAssignment(line) && KeyOf(line) in values {
      LineParts(KeyOf(line), values[KeyOf(line)]);
    }
  }

  // --- What the text predicates mean ---

  /** The characters at which Python's `splitlines` cuts. */
  lemma BreaksExactly(c: char)
    ensures IsBreak(c) <==> c as int in {0x0A, 0x0B, 0x0C, 0x0D, 0x1C, 0x1D, 0x1E, 0x85, 0x2028, 0x2029}
  {}

  /** The characters that Python's `lstrip` takes off. */
  lemma SpacesExactly(c: char)
    ensures IsSpace(c) <==>
            || c as int in {0x09, 0x0A, 0x0B, 0x0C, 0x0D, 0x1C, 0x1D, 0x1E, 0x1F, 0x20, 0x85, 0xA0, 0x1680, 0x2028, 0x2029, 0x202F, 0x205F, 0x3000}
            || 0x2000 <= c as int <= 0x200A
  {}

  /** A hash sign with nothing but white space before it. */
  ghost predicate HashAt(s: string, k: nat) {
    k < |s| && s[k] == '#' && forall i :: 0 <= i < k ==> IsSpace(s[i])
  }

  lemma HashInTail(s: string, k: nat)
    requires s != "" && k > 0
    ensures HashAt(s, k) <==> IsSpace(s[0]) && HashAt(s[1..], k - 1)
  {
    if k < |s| {
      assert forall i :: 0 <= i < k - 1 ==> s[1..][i] == s[i + 1];
      assert forall i :: 1 <= i < k ==> s[i] == s[1..][i - 1];
    }
  }

  lemma {:induction false} CommentExactly(s: string)
    ensures LooksLikeComment(s) <==> exists k :: HashAt(s, k)
  {
    if s != "" {
      CommentExactly(s[1..]);
      assert HashAt(s, 0) <==> s[0] == '#';
      if k: nat :| HashAt(s, k) && k > 0 {
        HashInTail(s, k);
      }
      if k: nat :| HashAt(s[1..], k) {
        HashInTail(s, k + 1);
      }
    }
  }

  /** Line i assigns the value to the key: no comment, and the key ends at the first equals sign. */
  ghost predicate Assigns(lines: seq<string>, i: nat, key: string, value: string) {
    && i < |lines| && lines[i] == key + ['='] + value && '=' !in key
    && !(exists k :: HashAt(lines[i], k))
  }

  lemma AssignsExactly(lines: seq<string>, i: nat, key: string, value: string)
    requires i < |lines|
    ensures Assigns(lines, i, key, value) <==> IsAssignment(lines[i]) && KeyOf(lines[i]) == key && ValueOf(lines[i]) == value
  {
    CommentExactly(lines[i]);
    if lines[i] == key + ['='] + value && '=' !in key {
      FirstIndexIs(key, '=', value);
      assert lines[i][|key|] == '=';
    }
    if IsAssignment(lines[i]) {
      AssignmentParts(lines[i]);
    }
  }

  /** Line i is the last to assign the key, and assigns it the value. */
  ghost predicate AssignsLast(lines: seq<string>, i: nat, key: string, value: string) {
    Assigns(lines, i, key, value) && forall j, v :: i < j < |lines| ==> !Assigns(lines, j, key, v)
  }

  /** No line assigns the key after line i. */
  ghost predicate NotAssignedAfter(lines: seq<string>, i: nat, key: string) {
    forall j: nat, v :: i < j ==> !Assigns(lines, j, key, v)
  }

  lemma {:induction false} AssignedKeyExactly(lines: seq<string>, key: string) returns (i: nat)
    ensures key in Assignments(lines) ==> Assigns(lines, i, key, Assignments(lines)[key]) && NotAssignedAfter(lines, i, key)
    ensures key !in Assignments(lines) ==> forall j: nat, v :: !Assigns(lines, j, key, v)
  {
    i := 0;
    if lines != [] {
      var n := |lines| - 1;
      var before := lines[..n];
      i := AssignedKeyExactly(before, key);
      forall j: nat, v ensures Assigns(lines, j, key, v) <==> Assigns(before, j, key, v) || (j == n && Assigns(lines, n, key, v)) {
        if j < n { assert before[j] == lines[j]; }
      }
      forall v ensures Assigns(lines, n, key, v) <==> IsAssignment(lines[n]) && KeyOf(lines[n]) == key && ValueOf(lines[n]) == v {
        AssignsExactly(lines, n, key, v);
      }
      if IsAssignment(lines[n]) && KeyOf(lines[n]) == key {
        i := n;
      }
    }
  }

  /** What a reader gets for a key is what its last assignment says. */
  lemma AssignmentsExactly(lines: seq<string>, key: string, value: string)
    ensures key in Assignments(lines) && Assignments(lines)[key] == value <==> exists i :: AssignsLast(lines, i, key, value)
  {
    var i := AssignedKeyExactly(lines, key);
    if key in Assignments(lines) {
      assert AssignsLast(lines, i, key, Assignments(lines)[key]);
    }
    if k: nat :| AssignsLast(lines, k, key, value) {
      LastIsUnique(lines, i, k, key, Assignments(lines)[key], value);
    }
  }

  lemma LastIsUnique(lines: seq<string>, i: nat, k: nat, key: string, v: string, w: string)
    requires Assigns(lines, i, key, v) && NotAssignedAfter(lines, i, key) && AssignsLast(lines, k, key, w)
    ensures i == k && v == w
  {
    assert i == k;
    SameLineSameValue(lines, i, key, v, w);
  }

  lemma SameLineSameValue(lines: seq<string>, i: nat, key: string, v: string, w: string)
    ensures Assigns(lines, i, key, v) && Assigns(lines, i, key, w) ==> v == w
  {
    if i < |lines| {
      AssignsExactly(lines, i, key, v);
      AssignsExactly(lines, i, key, w);
    }
  }

  // --- Reading back ---

  lemma {:induction false} KeptEach(lines: seq<string>, values: map<string, string>)
    ensures |Kept(lines, values)| == |lines|
    ensures forall i :: 0 <= i < |lines| ==> Kept(lines, values)[i] == NewLine(lines[i], values)
  {
    if lines != [] { KeptEach(lines[..|lines| - 1], values); }
  }

  lemma {:induction false} SeenExactly(lines: seq<string>, values: map<string, string>)
    ensures forall k :: k in Seen(lines, values) <==> k in values && k in Assignments(lines)
  {
    if lines != [] { SeenExactly(lines[..|lines| - 1], values); }
  }

  lemma {:induction false} AssignedKeys(lines: seq<string>)
    ensures forall k :: k in Assignments(lines) ==> !LooksLikeComment(k)
  {
    if lines != [] {
      AssignedKeys(lines[..|lines| - 1]);
      if IsAssignment(lines[|lines| - 1]) { AssignmentParts(lines[|lines| - 1]); }
    }
  }

  lemma {:induction false} KeptAssignments(lines: seq<string>, values: map<string, string>)
    requires forall k :: k in values ==> GoodKey(k)
    ensures Assignments(Kept(lines, values)).Keys == Assignments(lines).Keys
    ensures forall k :: k in Assignments(lines) ==>
      Assignments(Kept(lines, values))[k] == if k in values then values[k] else Assignments(lines)[k]
  {
    if lines != [] {
      var n := |lines| - 1;
      KeptAssignments(lines[..n], values);
      var kept := Kept(lines, values);
      assert kept[..|kept| - 1] == Kept(lines[..n], values);
      if IsAssignment(lines[n]) && KeyOf(lines[n]) in values {
        AssignmentParts(lines[n]);
        LineParts(KeyOf(lines[n]), values[KeyOf(lines[n])]);
      }
    }
  }

  lemma {:induction false} AssignmentsConcat(a: seq<string>, b: seq<string>)
    ensures Assignments(a + b) == Assignments(a) + Assignments(b)
  {
    if b == [] {
      assert a + b == a;
    } else {
      var n := |b| - 1;
      AssignmentsConcat(a, b[..n]);
      assert (a + b)[..|a + b| - 1] == a + b[..n];
      assert (a + b)[|a + b| - 1] == b[n];
    }
  }

  lemma {:induction false} AppendedAssignments(keys: seq<string>, values: map<string, string>, seen: set<string>)
    requires forall k :: k in keys ==> k in values && GoodKey(k)
    ensures forall k :: k in Assignments(Appended(keys, values, seen)) <==> k in keys && k !in seen && !LooksLikeComment(k)
    ensures forall k :: k in Assignments(Appended(keys, values, seen)) ==> Assignments(Appended(keys, values, seen))[k] == values[k]
  {
    if keys != [] {
      var n := |keys| - 1;
      AppendedAssignments(keys[..n], values, seen);
      assert forall k :: k in keys <==> k in keys[..n] || k == keys[n];
      var line := LineFor(keys[n], values[keys[n]]);
      LineParts(keys[n], values[keys[n]]);
      OneAssignment(line);
      AssignmentsConcat(Appended(keys[..n], values, seen), if keys[n] in seen then [] else [line]);
    }
  }

  lemma OneAssignment(line: string)
    ensures Assignments([line]) == if IsAssignment(line) then map[KeyOf(line) := ValueOf(line)] else map[]
  {
    assert [line][..0] == [];
  }

  /** The updates a reader can see: a key that looks like a comment is never read back. */
  function Visible(values: map<string, string>): map<string, string> {
    map k | k in values && !LooksLikeComment(k) :: values[k]
  }

  lemma RereadingKey(lines: seq<string>, d: Dict, k: string)
    requires IsDict(d)
    ensures k in Assignments(Upserted(lines, d)) <==> k in Assignments(lines) || k in Visible(d.values)
    ensures k in Assignments(Upserted(lines, d))
      ==> Assignments(Upserted(lines, d))[k] == if k in d.values then d.values[k] else Assignments(lines)[k]
  {
    var seen := Seen(lines, d.values);
    AssignmentsConcat(Kept(lines, d.values), Appended(d.keys, d.values, seen));
    KeptAssignments(lines, d.values);
    AppendedAssignments(d.keys, d.values, seen);
    SeenExactly(lines, d.values);
  }

  /** Re-reading the lines gives the old assignments overwritten by the visible updates. */
  lemma RereadingLines(lines: seq<string>, d: Dict)
    requires IsDict(d)
    ensures Assignments(Upserted(lines, d)) == Assignments(lines) + Visible(d.values)
  {
    AssignedKeys(lines);
    forall k
      ensures k in Assignments(Upserted(lines, d)) <==> k in Assignments(lines) || k in Visible(d.values)
      ensures k in Assignments(Upserted(lines, d))
        ==> Assignments(Upserted(lines, d))[k] == if k in d.values then d.values[k] else Assignments(lines)[k]
    {
      RereadingKey(lines, d, k);
    }
  }
}
