/** Reading the updates: tab-separated lines of group, key and value. */
module EnvUpdates {
  import opened Wrappers
  import opened Ordering
  import opened EnvText

  datatype Entry = Entry(group: string, key: string, value: string)

  datatype Error = WrongShape(line: nat) | UnknownGroup(line: nat, group: string) | InvalidKey(line: nat, key: string)

  const Groups: seq<string> := ["control", "operator", "explorer"]

  /** The fields of an input line, cut at its first two tabs. */
  function Fields(line: string): Option<(string, string, string)> {
    var a := FirstIndex(line, '\t');
    if a == |line| then None
    else
      var rest := line[a + 1..];
      var b := FirstIndex(rest, '\t');
      if b == |rest| then None else Some((line[..a], rest[..b], rest[b + 1..]))
  }

  function ParseLine(number: nat, line: string): Result<Entry, Error> {
    var fields := Fields(line);
    if fields.None? then Failure(WrongShape(number))
    else if fields.value.0 !in Groups then Failure(UnknownGroup(number, fields.value.0))
    else if !GoodKey(fields.value.1) then Failure(InvalidKey(number, fields.value.1))
    else Success(Entry(fields.value.0, fields.value.1, fields.value.2))
  }

  function InputLine(group: string, key: string, value: string): string {
    group + ['\t'] + (key + ['\t'] + value)
  }

  /** A line of a known group, a good key without tabs and any value is accepted and means just that. */
  lemma InputLineIsAccepted(number: nat, group: string, key: string, value: string)
    requires group in Groups && GoodKey(key) && '\t' !in key
    ensures ParseLine(number, InputLine(group, key, value)) == Success(Entry(group, key, value))
  {
    GroupsHaveNoTabs(group);
    FieldsOfInputLine(group, key, value);
  }

  /** The first tab of the line lies between these two texts. */
  ghost predicate CutsInto(line: string, before: string, after: string) {
    var a := FirstIndex(line, '\t');
    a < |line| && line[..a] == before && line[a + 1..] == after
  }

  lemma CutAtTab(before: string, after: string)
    requires '\t' !in before
    ensures CutsInto(before + ['\t'] + after, before, after)
  {
    FirstIndexIs(before, '\t', after);
  }

  lemma TwoCuts(line: string, group: string, rest: string, key: string, value: string)
    requires CutsInto(line, group, rest) && CutsInto(rest, key, value)
    ensures Fields(line) == Some((group, key, value))
  {}

  lemma FieldsOfInputLine(group: string, key: string, value: string)
    requires '\t' !in group && '\t' !in key
    ensures Fields(InputLine(group, key, value)) == Some((group, key, value))
  {
    var rest := key + ['\t'] + value;
    CutAtTab(group, rest);
    CutAtTab(key, value);
    TwoCuts(InputLine(group, key, value), group, rest, key, value);
  }

  /** The line is three fields with tabs in between, of which the first two hold no tab. */
  ghost predicate HasFields(line: string, group: string, key: string, value: string) {
    line == InputLine(group, key, value) && '\t' !in group && '\t' !in key
  }

  lemma CutApart(line: string, a: nat)
    requires a < |line|
    ensures line == line[..a] + [line[a]] + line[a + 1..]
  {}

  lemma CutBack(line: string)
    ensures var a := FirstIndex(line, '\t'); a < |line| ==> line == line[..a] + ['\t'] + line[a + 1..]
  {
    var a := FirstIndex(line, '\t');
    if a < |line| {
      CutApart(line, a);
    }
  }

  /** A line has three fields exactly when it holds two tabs or more; they are cut at the first two. */
  lemma FieldsExactly(line: string, group: string, key: string, value: string)
    ensures Fields(line) == Some((group, key, value)) <==> HasFields(line, group, key, value)
  {
    if HasFields(line, group, key, value) {
      FieldsOfInputLine(group, key, value);
    }
    CutBack(line);
    var a := FirstIndex(line, '\t');
    if a < |line| {
      CutBack(line[a + 1..]);
    }
  }

  function Tabs(s: string): nat {
    if s == "" then 0 else Tabs(s[1..]) + if s[0] == '\t' then 1 else 0
  }

  lemma {:induction false} TabsConcat(a: string, b: string)
    ensures Tabs(a + b) == Tabs(a) + Tabs(b)
  {
    if a == "" {
      assert a + b == b;
    } else {
      assert (a + b)[0] == a[0] && (a + b)[1..] == a[1..] + b;
      TabsConcat(a[1..], b);
    }
  }

  lemma {:induction false} NoTabs(s: string)
    ensures Tabs(s) == 0 <==> '\t' !in s
  {
    if s != "" {
      NoTabs(s[1..]);
      assert s == [s[0]] + s[1..];
    }
  }

  /** Cutting off the first field takes one tab away. */
  lemma TabsAfterCut(line: string)
    ensures var a := FirstIndex(line, '\t'); if a == |line| then Tabs(line) == 0 else Tabs(line) == 1 + Tabs(line[a + 1..])
  {
    var a := FirstIndex(line, '\t');
    NoTabs(line);
    if a < |line| {
      CutBack(line);
      NoTabs(line[..a]);
      TabsConcat(line[..a] + ['\t'], line[a + 1..]);
      TabsConcat(line[..a], ['\t']);
      assert ['\t'][1..] == "";
    }
  }

  lemma TooFewTabs(line: string)
    ensures Fields(line).None? <==> Tabs(line) < 2
  {
    TabsAfterCut(line);
    var a := FirstIndex(line, '\t');
    if a < |line| {
      TabsAfterCut(line[a + 1..]);
    }
  }

  lemma GroupsExactly(group: string)
    ensures group in Groups <==> group == "control" || group == "operator" || group == "explorer"
  {
    assert Groups == ["control", "operator", "explorer"];
  }

  function Parsed(number: nat, group: string, key: string, value: string): Result<Entry, Error> {
    if !(group == "control" || group == "operator" || group == "explorer") then Failure(UnknownGroup(number, group))
    else if key == "" || '=' in key then Failure(InvalidKey(number, key))
    else Success(Entry(group, key, value))
  }

  /** A line with fewer than two tabs is refused for its shape. */
  lemma ShapeExactly(number: nat, line: string)
    ensures ParseLine(number, line) == Failure(WrongShape(number)) <==> Tabs(line) < 2
  {
    TooFewTabs(line);
  }

  /** Any other line is refused when its first field names no group, else when its second one is empty or
      holds an equals sign, and otherwise gives its three fields. */
  lemma ParseExactly(number: nat, line: string, group: string, key: string, value: string)
    requires HasFields(line, group, key, value)
    ensures ParseLine(number, line) == Parsed(number, group, key, value)
  {
    FieldsExactly(line, group, key, value);
    GroupsExactly(group);
  }

  lemma GroupsHaveNoTabs(group: string)
    requires group in Groups
    ensures '\t' !in group
  {}

  /** The line is refused; empty lines are skipped. */
  predicate Refused(input: seq<string>, i: nat)
    requires i < |input|
  {
    input[i] != "" && ParseLine(i + 1, input[i]).Failure?
  }

  predicate Gives(input: seq<string>, i: nat, group: string, key: string)
    requires i < |input|
  {
    input[i] != "" && ParseLine(i + 1, input[i]).Success?
    && ParseLine(i + 1, input[i]).value.group == group && ParseLine(i + 1, input[i]).value.key == key
  }

  /** The value a group's key is last given, and by that whether it is given one. */
  function LastValue(input: seq<string>, group: string, key: string): Option<string> {
    if input == [] then None
    else
      var n := |input| - 1;
      if Gives(input, n, group, key) then Some(ParseLine(n + 1, input[n]).value.value) else LastValue(input[..n], group, key)
  }

  ghost predicate KeysInOrder(input: seq<string>, group: string, keys: seq<string>) {
    && NoDuplicates(keys)
    && (forall k :: k in keys <==> LastValue(input, group, k).Some?)
    && InFirstOrder(input, group, keys)
  }

  /** The line that first gives the key (the length of the input when none does). */
  function FirstGiven(input: seq<string>, group: string, key: string): (n: nat)
    ensures n <= |input|
    ensures n < |input| <==> LastValue(input, group, key).Some?
    ensures n < |input| ==> Gives(input, n, group, key)
    ensures forall i :: 0 <= i < n ==> !Gives(input, i, group, key)
  {
    if input == [] then 0
    else
      var n := |input| - 1;
      var before := FirstGiven(input[..n], group, key);
      assert forall i :: 0 <= i < n ==> Gives(input[..n], i, group, key) == Gives(input, i, group, key);
      if before < n || Gives(input, n, group, key) then before else |input|
  }

  /** The dictionary holds exactly the group's keys, each with the value it was given last, in the
      order in which they were given first. */
  ghost predicate CollectedFor(input: seq<string>, group: string, d: Dict) {
    && KeysInOrder(input, group, d.keys)
    && (forall k :: k in d.values <==> k in d.keys)
    && (forall k :: k in d.values ==> LastValue(input, group, k) == Some(d.values[k]))
  }

  function Put(d: Dict, key: string, value: string): Dict {
    Dict(if key in d.values then d.keys else d.keys + [key], d.values[key := value])
  }

  predicate GivesTo(input: seq<string>, i: nat, group: string)
    requires i < |input|
  {
    input[i] != "" && ParseLine(i + 1, input[i]).Success? && ParseLine(i + 1, input[i]).value.group == group
  }

  /** A group's dictionary after all the lines. */
  function Collected(input: seq<string>, group: string): Dict {
    if input == [] then Dict([], map[])
    else
      var n := |input| - 1;
      var before := Collected(input[..n], group);
      if GivesTo(input, n, group) then Put(before, ParseLine(n + 1, input[n]).value.key, ParseLine(n + 1, input[n]).value.value)
      else before
  }

  lemma {:induction false} CollectedValues(input: seq<string>, group: string)
    ensures var d := Collected(input, group);
      && NoDuplicates(d.keys)
      && (forall k :: k in d.values <==> k in d.keys)
      && (forall k :: k in d.values <==> LastValue(input, group, k).Some?)
      && (forall k :: k in d.values ==> LastValue(input, group, k) == Some(d.values[k]))
  {
    if input != [] {
      var n := |input| - 1;
      CollectedValues(input[..n], group);
      if GivesTo(input, n, group) {
        var key := ParseLine(n + 1, input[n]).value.key;
        assert forall k :: Gives(input, n, group, k) <==> k == key;
      } else {
        assert forall k :: !Gives(input, n, group, k);
      }
    }
  }

  ghost predicate InFirstOrder(input: seq<string>, group: string, keys: seq<string>) {
    forall a, b :: 0 <= a < b < |keys| ==> FirstGiven(input, group, keys[a]) < FirstGiven(input, group, keys[b])
  }

  lemma FirstGivenGrows(input: seq<string>, group: string, keys: seq<string>)
    requires input != [] && InFirstOrder(input[..|input| - 1], group, keys)
    requires forall k :: k in keys ==> LastValue(input[..|input| - 1], group, k).Some?
    ensures InFirstOrder(input, group, keys)
    ensures forall k :: k in keys ==> FirstGiven(input, group, k) < |input| - 1
  {
    assert forall k :: k in keys ==> FirstGiven(input, group, k) == FirstGiven(input[..|input| - 1], group, k);
  }

  lemma NewKeyComesLast(input: seq<string>, group: string, keys: seq<string>, key: string)
    requires input != [] && InFirstOrder(input, group, keys)
    requires forall k :: k in keys ==> FirstGiven(input, group, k) < |input| - 1
    requires FirstGiven(input, group, key) == |input| - 1
    ensures InFirstOrder(input, group, keys + [key])
  {
    var longer := keys + [key];
    forall i, j | 0 <= i < j < |longer| ensures FirstGiven(input, group, longer[i]) < FirstGiven(input, group, longer[j]) {
      assert longer[i] == keys[i] && keys[i] in keys;
      if j < |keys| { assert longer[j] == keys[j]; }
    }
  }

  lemma FirstGivenHere(input: seq<string>, group: string, key: string)
    requires input != [] && Gives(input, |input| - 1, group, key) && LastValue(input[..|input| - 1], group, key).None?
    ensures FirstGiven(input, group, key) == |input| - 1
  {}

  lemma {:induction false} CollectedOrder(input: seq<string>, group: string)
    ensures InFirstOrder(input, group, Collected(input, group).keys)
  {
    if input != [] {
      var n := |input| - 1;
      var before := Collected(input[..n], group);
      CollectedOrder(input[..n], group);
      CollectedValues(input[..n], group);
      FirstGivenGrows(input, group, before.keys);
      if GivesTo(input, n, group) {
        var key := ParseLine(n + 1, input[n]).value.key;
        if key !in before.values {
          FirstGivenHere(input, group, key);
          NewKeyComesLast(input, group, before.keys, key);
        }
      }
    }
  }

  /** Collecting keeps the last value of every key and the order in which the keys first came. */
  lemma CollectedExactly(input: seq<string>, group: string)
    ensures CollectedFor(input, group, Collected(input, group))
  {
    CollectedValues(input, group);
    CollectedOrder(input, group);
  }

  lemma CollectedIsDict(input: seq<string>, group: string)
    ensures IsDict(Collected(input, group))
  {
    CollectedExactly(input, group);
    var d := Collected(input, group);
    forall k | k in d.keys ensures GoodKey(k) {
      assert Gives(input, FirstGiven(input, group, k), group, k);
    }
  }

  function UpdatesFor(input: seq<string>, group: string): (d: Dict)
    ensures IsDict(d) && CollectedFor(input, group, d)
  {
    CollectedIsDict(input, group);
    CollectedExactly(input, group);
    Collected(input, group)
  }

  ghost predicate CollectedAt(updates: map<string, Dict>, input: seq<string>, group: string) {
    (group in updates <==> group in Groups) && (group in Groups ==> updates[group] == Collected(input, group))
  }

  /** The dictionaries collected from the lines so far. */
  ghost predicate AllCollected(updates: map<string, Dict>, input: seq<string>) {
    forall group :: CollectedAt(updates, input, group)
  }

  ghost predicate NoneRefused(input: seq<string>, n: nat)
    requires n <= |input|
  {
    forall i :: 0 <= i < n ==> !Refused(input, i)
  }

  lemma CollectedOneMore(input: seq<string>, i: nat, group: string)
    requires i < |input|
    ensures Collected(input[..i + 1], group)
         == if GivesTo(input, i, group)
            then Put(Collected(input[..i], group), ParseLine(i + 1, input[i]).value.key, ParseLine(i + 1, input[i]).value.value)
            else Collected(input[..i], group)
  {
    assert input[..i + 1][..i] == input[..i];
  }

  lemma SkipLine(updates: map<string, Dict>, input: seq<string>, i: nat)
    requires i < |input| && AllCollected(updates, input[..i]) && input[i] == ""
    ensures AllCollected(updates, input[..i + 1])
  {
    var more := input[..i + 1];
    forall group ensures CollectedAt(updates, more, group) {
      assert CollectedAt(updates, input[..i], group);
      CollectedOneMore(input, i, group);
    }
  }

  lemma TakeLine(updates: map<string, Dict>, input: seq<string>, i: nat, entry: Entry)
    requires i < |input| && AllCollected(updates, input[..i]) && input[i] != "" && ParseLine(i + 1, input[i]) == Success(entry)
    ensures entry.group in updates
    ensures AllCollected(updates[entry.group := Put(updates[entry.group], entry.key, entry.value)], input[..i + 1])
  {
    assert CollectedAt(updates, input[..i], entry.group);
    var next, more := updates[entry.group := Put(updates[entry.group], entry.key, entry.value)], input[..i + 1];
    forall group ensures CollectedAt(next, more, group) {
      assert CollectedAt(updates, input[..i], group);
      CollectedOneMore(input, i, group);
    }
  }

  function NoUpdates(): (updates: map<string, Dict>)
    ensures AllCollected(updates, [])
  {
    map group | group in Groups :: Dict([], map[])
  }

  lemma CollectedIsAnswer(updates: map<string, Dict>, input: seq<string>)
    requires AllCollected(updates, input)
    ensures forall group :: (group in updates <==> group in Groups) && (group in Groups ==> updates[group] == UpdatesFor(input, group))
  {
    forall group ensures (group in updates <==> group in Groups) && (group in Groups ==> updates[group] == UpdatesFor(input, group)) {
      assert CollectedAt(updates, input, group);
    }
  }

  /** The first refused line, and why it is refused. */
  ghost predicate FirstRefusal(input: seq<string>, e: Error) {
    exists i :: 0 <= i < |input| && Refused(input, i) && e == ParseLine(i + 1, input[i]).error && NoneRefused(input, i)
  }

  /** Nothing but the first refused line decides the error, and no update survives it. */
  method CollectUpdates(input: seq<string>) returns (r: Result<map<string, Dict>, Error>)
    ensures r.Success? <==> NoneRefused(input, |input|)
    ensures r.Success? ==> forall group :: (group in r.value <==> group in Groups)
                                        && (group in Groups ==> r.value[group] == UpdatesFor(input, group))
    ensures r.Failure? ==> FirstRefusal(input, r.error)
  {
    var updates := NoUpdates();
    assert input[..0] == [];
    for i := 0 to |input|
      invariant NoneRefused(input, i) && AllCollected(updates, input[..i])
    {
      var line := input[i];
      if line == "" {
        SkipLine(updates, input, i);
        continue;
      }
      var entry := ParseLine(i + 1, line);
      if entry.Failure? {
        assert Refused(input, i);
        return Failure(entry.error);
      }
      TakeLine(updates, input, i, entry.value);
      var group := entry.value.group;
      updates := updates[group := Put(updates[group], entry.value.key, entry.value.value)];
    }
    assert input[..|input|] == input;
    CollectedIsAnswer(updates, input);
    return Success(updates);
  }
}
