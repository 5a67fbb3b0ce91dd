/** The grouped deploy transcript: chunks of several streams are cut into lines, and runs of lines of
    one group get a header. */
module Transcript {
  import opened Wrappers
  import opened Ordering
  import opened TranscriptText

  type Stream = nat

  /** One `write` call on a stream. */
  datatype Output = Output(stream: Stream, text: string)

  /** A line on its way out, without its newline. */
  datatype Line = Line(stream: Stream, raw: string)

  /** A carriage return at the very end is dropped. */
  function Chomp(raw: string): string {
    if raw != "" && raw[|raw| - 1] == '\r' then raw[..|raw| - 1] else raw
  }

  // --- Cutting into lines ---

  function Prepend(c: char, parts: seq<string>): (more: seq<string>)
    requires |parts| > 0
    ensures |more| > 0
  {
    if c == '\n' then [""] + parts else [[c] + parts[0]] + parts[1..]
  }

  /** `text.split(/\n/)`. */
  function Split(s: string): (parts: seq<string>)
    ensures |parts| > 0
  {
    if s == "" then [""] else Prepend(s[0], Split(s[1..]))
  }

  /** The complete lines of a text, and what is left after the last newline. */
  function Complete(s: string): seq<string> {
    Split(s)[..|Split(s)| - 1]
  }

  function Left(s: string): string {
    Split(s)[|Split(s)| - 1]
  }

  lemma PrependConcat(c: char, p: seq<string>, q: seq<string>)
    requires |p| > 1 && |q| > 0
    ensures Prepend(c, p[..|p| - 1] + q) == Prepend(c, p)[..|Prepend(c, p)| - 1] + q
    ensures Prepend(c, p)[|Prepend(c, p)| - 1] == p[|p| - 1]
  {
    var front := p[..|p| - 1];
    var more := Prepend(c, p);
    if c == '\n' {
      assert more[..|more| - 1] == [""] + front;
      ConcatAssociative([""], front, q);
    } else {
      assert (front + q)[0] == p[0] && (front + q)[1..] == front[1..] + q;
      assert more[..|more| - 1] == [[c] + p[0]] + front[1..];
      ConcatAssociative([[c] + p[0]], front[1..], q);
    }
  }

  lemma SplitPrepend(c: char, s: string)
    ensures Split([c] + s) == Prepend(c, Split(s))
  {
    assert ([c] + s)[1..] == s;
  }

  lemma {:induction false} SplitConcat(a: string, b: string)
    ensures Split(a + b) == Complete(a) + Split(Left(a) + b)
  {
    if a == "" {
      assert a + b == b && Left(a) + b == b;
    } else {
      var c, p := a[0], Split(a[1..]);
      assert a + b == [c] + (a[1..] + b);
      SplitPrepend(c, a[1..] + b);
      SplitConcat(a[1..], b);
      var q := Split(Left(a[1..]) + b);
      assert Split(a + b) == Prepend(c, p[..|p| - 1] + q);
      if |p| > 1 {
        PrependConcat(c, p, q);
      } else {
        assert p[..|p| - 1] + q == q;
        SplitFirstLine(c, p[0], b);
        assert a == [c] + a[1..];
      }
    }
  }

  /** The case of SplitConcat in which no newline follows the first character. */
  lemma SplitFirstLine(c: char, line: string, b: string)
    ensures var parts := Prepend(c, [line]);
      parts[..|parts| - 1] + Split(parts[|parts| - 1] + b) == Prepend(c, Split(line + b))
  {
    if c == '\n' {
      assert Prepend(c, [line]) == ["", line];
    } else {
      assert Prepend(c, [line]) == [[c] + line];
      assert [c] + line + b == [c] + (line + b);
      SplitPrepend(c, line + b);
    }
  }

  /** The parts with newlines in between. */
  function JoinedByNewline(parts: seq<string>): string
    requires |parts| > 0
  {
    if |parts| == 1 then parts[0] else parts[0] + ['\n'] + JoinedByNewline(parts[1..])
  }

  ghost predicate NoNewlines(parts: seq<string>) {
    forall i :: 0 <= i < |parts| ==> '\n' !in parts[i]
  }

  lemma JoinAfter(first: string, more: seq<string>)
    requires |more| > 0
    ensures JoinedByNewline([first] + more) == first + ['\n'] + JoinedByNewline(more)
  {
    assert ([first] + more)[1..] == more;
  }

  lemma JoinAfterNewline(parts: seq<string>)
    requires |parts| > 0
    ensures JoinedByNewline([""] + parts) == ['\n'] + JoinedByNewline(parts)
  {
    JoinAfter("", parts);
    assert "" + ['\n'] == ['\n'];
  }

  lemma JoinAfterChar(c: char, first: string, more: seq<string>)
    ensures JoinedByNewline([[c] + first] + more) == [c] + JoinedByNewline([first] + more)
  {
    if more != [] {
      JoinAfter([c] + first, more);
      JoinAfter(first, more);
      ConcatAssociative([c], first, ['\n']);
      ConcatAssociative([c], first + ['\n'], JoinedByNewline(more));
    } else {
      assert [[c] + first] + more == [[c] + first] && [first] + more == [first];
    }
  }

  lemma JoinPrepend(c: char, parts: seq<string>)
    requires |parts| > 0
    ensures JoinedByNewline(Prepend(c, parts)) == [c] + JoinedByNewline(parts)
  {
    if c == '\n' {
      JoinAfterNewline(parts);
    } else {
      assert parts == [parts[0]] + parts[1..];
      JoinAfterChar(c, parts[0], parts[1..]);
    }
  }

  lemma PrependNoNewlines(c: char, parts: seq<string>)
    requires |parts| > 0 && NoNewlines(parts)
    ensures NoNewlines(Prepend(c, parts))
  {
    var more := Prepend(c, parts);
    forall i | 0 <= i < |more| ensures '\n' !in more[i] {
      if c == '\n' {
        assert i > 0 ==> more[i] == parts[i - 1];
      } else {
        assert i > 0 ==> more[i] == parts[i];
      }
    }
  }

  /** The text is cut at its newlines and nowhere else: no part holds one, and with newlines in between
      the parts give the text back. */
  lemma {:induction false} SplitExactly(s: string)
    ensures JoinedByNewline(Split(s)) == s && NoNewlines(Split(s))
  {
    if s != "" {
      SplitExactly(s[1..]);
      JoinPrepend(s[0], Split(s[1..]));
      PrependNoNewlines(s[0], Split(s[1..]));
      assert s == [s[0]] + s[1..];
    }
  }

  /** One carriage return at the end of a line is not shown; everything else is. */
  lemma ChompExactly(line: string)
    ensures Chomp(line + ['\r']) == line
    ensures line == "" || line[|line| - 1] != '\r' ==> Chomp(line) == line
  {
    assert (line + ['\r'])[..|line|] == line;
  }

  /** Buffering what is left over and going on from there loses nothing and adds nothing. */
  lemma CutAnywhere(a: string, b: string)
    ensures Complete(a + b) == Complete(a) + Complete(Left(a) + b)
    ensures Left(a + b) == Left(Left(a) + b)
  {
    SplitConcat(a, b);
  }

  // --- What a sequence of lines looks like on the streams ---

  /** How lines are titled, grouped and shown. The writer uses GroupOf and Rendered of
      TranscriptText; nothing below depends on what they are. */
  datatype Env = Env(title: (Group, Stream) -> string, groupOf: string -> Group, rendered: string -> string)

  /** A blank line between groups, and the group's title. */
  function Header(env: Env, current: Option<Group>, group: Group, stream: Stream): seq<Output> {
    if current == Some(group) then []
    else (if current.Some? then [Output(stream, "\n")] else []) + [Output(stream, env.title(group, stream) + "\n")]
  }

  /** The output calls for one line after a line of group `current`. */
  function Block(env: Env, current: Option<Group>, line: Line): seq<Output> {
    var text := Chomp(line.raw);
    if text == "" then [Output(line.stream, "\n")]
    else Header(env, current, env.groupOf(text), line.stream) + [Output(line.stream, env.rendered(text))]
  }

  /** The group of the last non-empty line. */
  function LastGroup(env: Env, lines: seq<Line>): Option<Group> {
    if lines == [] then None
    else
      var text := Chomp(lines[|lines| - 1].raw);
      if text == "" then LastGroup(env, lines[..|lines| - 1]) else Some(env.groupOf(text))
  }

  /** Every line with the header it needs after the lines before it. */
  function Page(env: Env, lines: seq<Line>): seq<Output> {
    if lines == [] then []
    else Page(env, lines[..|lines| - 1]) + Block(env, LastGroup(env, lines[..|lines| - 1]), lines[|lines| - 1])
  }

  lemma PageOneMore(env: Env, lines: seq<Line>, line: Line)
    ensures Page(env, lines + [line]) == Page(env, lines) + Block(env, LastGroup(env, lines), line)
    ensures LastGroup(env, lines + [line]) == if Chomp(line.raw) == "" then LastGroup(env, lines) else Some(env.groupOf(Chomp(line.raw)))
  {
    assert (lines + [line])[..|lines + [line]| - 1] == lines;
  }

  function OnStream(stream: Stream, raws: seq<string>): seq<Line> {
    seq(|raws|, i requires 0 <= i < |raws| => Line(stream, raws[i]))
  }

  lemma OnStreamOneMore(stream: Stream, raws: seq<string>, k: nat)
    requires k < |raws|
    ensures OnStream(stream, raws[..k + 1]) == OnStream(stream, raws[..k]) + [Line(stream, raws[k])]
  {}

  // --- Calls ---

  datatype Call = Write(stream: Stream, chunk: string) | Flush

  /** Buffers in the order in which streams first wrote, and the lines sent out so far. */
  datatype State = State(order: seq<Stream>, buffers: map<Stream, string>, lines: seq<Line>)

  function Start(): State { State([], map[], []) }

  function Buffered(s: State, stream: Stream): string {
    if stream in s.buffers then s.buffers[stream] else ""
  }

  function WriteStep(s: State, stream: Stream, chunk: string): State {
    var combined := Buffered(s, stream) + chunk;
    State(if stream in s.buffers then s.order else s.order + [stream],
          s.buffers[stream := Left(combined)],
          s.lines + OnStream(stream, Complete(combined)))
  }

  function FlushStep(s: State, order: seq<Stream>): State
    decreases |order|
  {
    if order == [] then s
    else
      var stream := order[0];
      FlushStep(FlushOne(s, stream), order[1..])
  }

  function FlushOne(s: State, stream: Stream): State {
    if Buffered(s, stream) != "" then
      s.(buffers := s.buffers[stream := ""], lines := s.lines + [Line(stream, Buffered(s, stream))])
    else s
  }

  function Step(s: State, call: Call): State {
    match call
    case Write(stream, chunk) => WriteStep(s, stream, chunk)
    case Flush => FlushStep(s, s.order)
  }

  function Run(calls: seq<Call>): State {
    if calls == [] then Start() else Step(Run(calls[..|calls| - 1]), calls[|calls| - 1])
  }

  /** Everything written to a stream. */
  function Fed(calls: seq<Call>, stream: Stream): string {
    if calls == [] then ""
    else
      var last := calls[|calls| - 1];
      Fed(calls[..|calls| - 1], stream) + if last.Write? && last.stream == stream then last.chunk else ""
  }

  function Of(stream: Stream): Line -> bool {
    (line: Line) => line.stream == stream
  }

  /** All lines of a text, an unfinished last one included. */
  function AllLines(s: string): seq<string> {
    Complete(s) + if Left(s) != "" then [Left(s)] else []
  }

  ghost predicate WritesOnly(calls: seq<Call>) {
    forall k :: 0 <= k < |calls| ==> calls[k].Write?
  }

  lemma {:induction false} FilterOnStream(stream: Stream, other: Stream, raws: seq<string>)
    ensures Filter(Of(stream), OnStream(other, raws)) == if stream == other then OnStream(other, raws) else []
  {
    if stream == other {
      FilterEverything(Of(stream), OnStream(other, raws));
    } else {
      FilterNothing(Of(stream), OnStream(other, raws));
    }
  }

  /** The state keeps the streams apart: each buffer holds what is left of its own stream's text, and
      the lines sent out for a stream are its complete lines. */
  ghost predicate KeepsApart(s: State, calls: seq<Call>) {
    && NoDuplicates(s.order) && (forall stream :: stream in s.order <==> stream in s.buffers)
    && forall stream :: KeepsOne(s, calls, stream)
  }

  ghost predicate KeepsOne(s: State, calls: seq<Call>, stream: Stream) {
    && Buffered(s, stream) == Left(Fed(calls, stream))
    && Filter(Of(stream), s.lines) == OnStream(stream, Complete(Fed(calls, stream)))
  }

  lemma FedOneMore(calls: seq<Call>, stream: Stream, chunk: string, other: Stream)
    ensures Fed(calls + [Write(stream, chunk)], other) == Fed(calls, other) + if other == stream then chunk else ""
  {
    var longer := calls + [Write(stream, chunk)];
    assert longer[..|longer| - 1] == calls;
  }

  lemma OnStreamConcat(stream: Stream, a: seq<string>, b: seq<string>)
    ensures OnStream(stream, a + b) == OnStream(stream, a) + OnStream(stream, b)
  {}

  lemma WriteKeepsOne(s: State, calls: seq<Call>, stream: Stream, chunk: string, other: Stream)
    requires KeepsApart(s, calls)
    ensures KeepsOne(WriteStep(s, stream, chunk), calls + [Write(stream, chunk)], other)
  {
    assert KeepsOne(s, calls, other);
    FedOneMore(calls, stream, chunk, other);
    var combined := Buffered(s, stream) + chunk;
    FilterConcat(Of(other), s.lines, OnStream(stream, Complete(combined)));
    FilterOnStream(other, stream, Complete(combined));
    if other == stream {
      CutAnywhere(Fed(calls, stream), chunk);
      OnStreamConcat(stream, Complete(Fed(calls, stream)), Complete(combined));
    } else {
      assert Fed(calls, other) + "" == Fed(calls, other);
    }
  }

  lemma WriteKeepsApart(s: State, calls: seq<Call>, stream: Stream, chunk: string)
    requires KeepsApart(s, calls)
    ensures KeepsApart(WriteStep(s, stream, chunk), calls + [Write(stream, chunk)])
  {
    forall other ensures KeepsOne(WriteStep(s, stream, chunk), calls + [Write(stream, chunk)], other) {
      WriteKeepsOne(s, calls, stream, chunk, other);
    }
  }

  lemma {:induction false} WritesKeepApart(calls: seq<Call>)
    requires WritesOnly(calls)
    ensures KeepsApart(Run(calls), calls)
  {
    if calls == [] {
      StartKeepsApart();
    } else {
      var before, last := calls[..|calls| - 1], calls[|calls| - 1];
      WritesKeepApart(before);
      WriteKeepsApart(Run(before), before, last.stream, last.chunk);
      RunWrite(calls);
    }
  }

  lemma RunWrite(calls: seq<Call>)
    requires calls != [] && calls[|calls| - 1].Write?
    ensures var before, last := calls[..|calls| - 1], calls[|calls| - 1];
      Run(calls) == WriteStep(Run(before), last.stream, last.chunk) && calls == before + [Write(last.stream, last.chunk)]
  {}

  lemma StartKeepsApart()
    ensures KeepsApart(Start(), [])
  {
    forall stream ensures KeepsOne(Start(), [], stream) {
      assert Fed([], stream) == "" && Split("") == [""];
    }
  }

  lemma {:induction false} FlushLines(s: State, order: seq<Stream>, stream: Stream)
    requires NoDuplicates(order)
    ensures Filter(Of(stream), FlushStep(s, order).lines)
         == Filter(Of(stream), s.lines) + if stream in order && Buffered(s, stream) != "" then [Line(stream, Buffered(s, stream))] else []
    ensures Buffered(FlushStep(s, order), stream) == if stream in order then "" else Buffered(s, stream)
    decreases |order|
  {
    if order != [] {
      var head := order[0];
      var t := FlushOne(s, head);
      FlushLines(t, order[1..], stream);
      FilterConcat(Of(stream), s.lines, [Line(head, Buffered(s, head))]);
      assert stream in order <==> stream == head || stream in order[1..];
      assert head !in order[1..];
    }
  }

  /** The unfinished lines, stream by stream. */
  function Unfinished(buffers: map<Stream, string>, order: seq<Stream>): seq<Line> {
    if order == [] then []
    else
      var stream := order[0];
      (if stream in buffers && buffers[stream] != "" then [Line(stream, buffers[stream])] else []) + Unfinished(buffers, order[1..])
  }

  lemma {:induction false} UnfinishedOthers(a: map<Stream, string>, b: map<Stream, string>, order: seq<Stream>)
    requires forall x :: x in order ==> (x in a <==> x in b) && (x in a ==> a[x] == b[x])
    ensures Unfinished(a, order) == Unfinished(b, order)
  {
    if order != [] {
      assert order[0] in order && forall x :: x in order[1..] ==> x in order;
      UnfinishedOthers(a, b, order[1..]);
    }
  }

  /** A flush sends out the unfinished lines after everything else, one for each stream that has one, in
      the order of the streams. */
  lemma {:induction false} FlushSendsUnfinished(s: State, order: seq<Stream>)
    requires NoDuplicates(order)
    ensures FlushStep(s, order).lines == s.lines + Unfinished(s.buffers, order)
    decreases |order|
  {
    if order == [] {
      assert s.lines + [] == s.lines;
    } else {
      var head, t := order[0], FlushOne(s, order[0]);
      FlushSendsUnfinished(t, order[1..]);
      assert forall x :: x in order[1..] ==> x != head;
      UnfinishedOthers(t.buffers, s.buffers, order[1..]);
      var first := if Buffered(s, head) != "" then [Line(head, Buffered(s, head))] else [];
      assert t.lines == s.lines + first;
      ConcatAssociative(s.lines, first, Unfinished(s.buffers, order[1..]));
    }
  }

  /** The call at position k is the first one that writes to the stream. */
  ghost predicate FirstWriteAt(calls: seq<Call>, k: nat, stream: Stream) {
    && k < |calls| && calls[k].Write? && calls[k].stream == stream
    && forall i :: 0 <= i < k ==> !(calls[i].Write? && calls[i].stream == stream)
  }

  ghost predicate OrderedByFirstWrite(calls: seq<Call>, order: seq<Stream>) {
    && (forall stream :: stream in order <==> exists k :: FirstWriteAt(calls, k, stream))
    && forall i, j, k, m :: 0 <= i < j < |order| && FirstWriteAt(calls, k, order[i]) && FirstWriteAt(calls, m, order[j]) ==> k < m
  }

  lemma {:induction false} FlushKeepsStreams(s: State, order: seq<Stream>)
    ensures FlushStep(s, order).order == s.order && FlushStep(s, order).buffers.Keys == s.buffers.Keys
    decreases |order|
  {
    if order != [] {
      FlushKeepsStreams(FlushOne(s, order[0]), order[1..]);
    }
  }

  lemma FirstWriteUnfolds(calls: seq<Call>, k: nat, stream: Stream)
    requires calls != []
    ensures var n := |calls| - 1; FirstWriteAt(calls, k, stream) <==>
            FirstWriteAt(calls[..n], k, stream)
            || (k == n && calls[n].Write? && calls[n].stream == stream && forall i :: !FirstWriteAt(calls[..n], i, stream))
  {
    var n := |calls| - 1;
    assert forall i :: 0 <= i < n ==> calls[..n][i] == calls[i];
    if exists i :: 0 <= i < n && calls[i].Write? && calls[i].stream == stream {
      var i := SomeFirstWrite(calls[..n], stream);
    }
  }

  lemma {:induction false} SomeFirstWrite(calls: seq<Call>, stream: Stream) returns (k: nat)
    requires exists i :: 0 <= i < |calls| && calls[i].Write? && calls[i].stream == stream
    ensures FirstWriteAt(calls, k, stream)
  {
    var n := |calls| - 1;
    assert forall i :: 0 <= i < n ==> calls[..n][i] == calls[i];
    if exists i :: 0 <= i < n && calls[i].Write? && calls[i].stream == stream {
      var i :| 0 <= i < n && calls[i].Write? && calls[i].stream == stream;
      assert calls[..n][i].Write?;
      k := SomeFirstWrite(calls[..n], stream);
    } else {
      k := n;
    }
  }

  /** Streams are known, and will be flushed, in the order in which they were first written to. */
  lemma {:induction false} StreamsByFirstWrite(calls: seq<Call>)
    ensures OrderedByFirstWrite(calls, Run(calls).order)
    ensures forall stream :: stream in Run(calls).order <==> stream in Run(calls).buffers
  {
    if calls != [] {
      var n := |calls| - 1;
      var s := Run(calls[..n]);
      StreamsByFirstWrite(calls[..n]);
      if calls[n].Flush? {
        FlushKeepsStreams(s, s.order);
      }
      OrderOneMore(calls, s.order, Run(calls).order);
    }
  }

  lemma OrderOneMore(calls: seq<Call>, before: seq<Stream>, order: seq<Stream>)
    requires calls != [] && OrderedByFirstWrite(calls[..|calls| - 1], before)
    requires var last := calls[|calls| - 1];
      order == if last.Write? && last.stream !in before then before + [last.stream] else before
    ensures OrderedByFirstWrite(calls, order)
  {
    var n := |calls| - 1;
    forall k, stream ensures FirstWriteAt(calls, k, stream) <==>
      FirstWriteAt(calls[..n], k, stream)
      || (k == n && calls[n].Write? && calls[n].stream == stream && forall i :: !FirstWriteAt(calls[..n], i, stream))
    {
      FirstWriteUnfolds(calls, k, stream);
    }
    forall stream ensures stream in order <==> exists k :: FirstWriteAt(calls, k, stream) {
      if stream in before {
        var k :| FirstWriteAt(calls[..n], k, stream);
        assert FirstWriteAt(calls, k, stream);
      } else if calls[n].Write? && calls[n].stream == stream {
        assert FirstWriteAt(calls, n, stream);
      }
    }
  }

  // --- Main results ---

  /** For any number of streams and any interleaving of their chunks, after a final flush: the lines
      sent out for a stream are exactly the lines of all the text written to it, whole, once each and
      in order, the last one also when it has no newline; and nothing stays buffered. */
  lemma EveryLineOnce(calls: seq<Call>, stream: Stream)
    requires WritesOnly(calls)
    ensures var s := Run(calls + [Flush]);
      && Filter(Of(stream), s.lines) == OnStream(stream, AllLines(Fed(calls, stream)))
      && Buffered(s, stream) == ""
  {
    var longer := calls + [Flush];
    assert longer[..|longer| - 1] == calls;
    WritesKeepApart(calls);
    var s := Run(calls);
    assert KeepsOne(s, calls, stream);
    FlushLines(s, s.order, stream);
    OnStreamAll(stream, Fed(calls, stream));
  }

  lemma OnStreamAll(stream: Stream, text: string)
    ensures OnStream(stream, AllLines(text))
         == OnStream(stream, Complete(text)) + if Left(text) != "" then [Line(stream, Left(text))] else []
  {}

  lemma {:induction false} OneStreamOnly(calls: seq<Call>, stream: Stream)
    requires forall k :: 0 <= k < |calls| ==> calls[k].Flush? || calls[k].stream == stream
    ensures forall line :: line in Run(calls).lines ==> line.stream == stream
    ensures forall x :: x in Run(calls).order ==> x == stream
  {
    if calls != [] {
      var before := calls[..|calls| - 1];
      OneStreamOnly(before, stream);
      if calls[|calls| - 1].Flush? {
        FlushOneStream(Run(before), Run(before).order, stream);
      }
    }
  }

  lemma {:induction false} FlushOneStream(s: State, order: seq<Stream>, stream: Stream)
    requires (forall line :: line in s.lines ==> line.stream == stream) && (forall x :: x in order ==> x == stream)
    ensures forall line :: line in FlushStep(s, order).lines ==> line.stream == stream
    ensures FlushStep(s, order).order == s.order
    decreases |order|
  {
    if order != [] {
      var head := order[0];
      var t := FlushOne(s, head);
      assert order[0] in order && forall x :: x in order[1..] ==> x in order;
      forall line | line in t.lines ensures line.stream == stream {
        assert line in s.lines || line == Line(head, Buffered(s, head));
      }
      FlushOneStream(t, order[1..], stream);
    }
  }

  /** For one stream, what is written out depends only on the concatenation of the chunks: the page
      of its lines. How the text was cut into chunks cannot be seen. */
  lemma ChunkingInvisible(env: Env, calls: seq<Call>, stream: Stream)
    requires WritesOnly(calls) && forall k :: 0 <= k < |calls| ==> calls[k].stream == stream
    ensures Page(env, Run(calls + [Flush]).lines) == Page(env, OnStream(stream, AllLines(Fed(calls, stream))))
  {
    EveryLineOnce(calls, stream);
    OneStreamOnly(calls + [Flush], stream);
    FilterEverything(Of(stream), Run(calls + [Flush]).lines);
  }

  /** Line by line: what one more line adds to the page. */
  lemma BlockAdded(env: Env, lines: seq<Line>, k: nat)
    requires k < |lines|
    ensures var text, before := Chomp(lines[k].raw), LastGroup(env, lines[..k]);
      && Page(env, lines[..k + 1]) == Page(env, lines[..k]) + Block(env, before, lines[k])
      && (|Block(env, before, lines[k])| > 1 <==> text != "" && before != Some(env.groupOf(text)))
      && (text != "" ==> Block(env, before, lines[k])[|Block(env, before, lines[k])| - 1] == Output(lines[k].stream, env.rendered(text)))
      && (text != "" && before != Some(env.groupOf(text)) ==>
            Output(lines[k].stream, env.title(env.groupOf(text), lines[k].stream) + "\n") in Block(env, before, lines[k]))
  {
    assert lines[..k + 1] == lines[..k] + [lines[k]];
    PageOneMore(env, lines[..k], lines[k]);
    var text := Chomp(lines[k].raw);
    if text != "" && LastGroup(env, lines[..k]) != Some(env.groupOf(text)) {
      var block := Block(env, LastGroup(env, lines[..k]), lines[k]);
      assert block[|block| - 2] == Output(lines[k].stream, env.title(env.groupOf(text), lines[k].stream) + "\n");
    }
  }

  // --- The whole page ---

  /** Where the outputs for line k begin, and where the line itself is. */
  function BlockStart(env: Env, lines: seq<Line>, k: nat): nat
    requires k <= |lines|
  {
    |Page(env, lines[..k])|
  }

  /** What a line looks like, without its header. */
  function Shown(env: Env, line: Line): Output {
    Output(line.stream, if Chomp(line.raw) == "" then "\n" else env.rendered(Chomp(line.raw)))
  }

  predicate IsEmpty(line: Line) {
    Chomp(line.raw) == ""
  }

  /** Line j is the last non-empty line before line k. */
  ghost predicate IsPrevious(lines: seq<Line>, j: nat, k: nat)
    requires k <= |lines|
  {
    j < k && !IsEmpty(lines[j]) && forall i :: j < i < k ==> IsEmpty(lines[i])
  }

  function GroupAt(env: Env, lines: seq<Line>, k: nat): Group
    requires k < |lines|
  {
    env.groupOf(Chomp(lines[k].raw))
  }

  ghost predicate HasPrevious(lines: seq<Line>, k: nat)
    requires k <= |lines|
  {
    exists j :: IsPrevious(lines, j, k)
  }

  /** Line k is not empty, and no line before it or the last non-empty one of another group. */
  ghost predicate ChangesGroup(env: Env, lines: seq<Line>, k: nat)
    requires k < |lines|
  {
    !IsEmpty(lines[k]) && forall j :: IsPrevious(lines, j, k) ==> GroupAt(env, lines, j) != GroupAt(env, lines, k)
  }

  lemma PreviousBeforeEmpty(lines: seq<Line>, k: nat)
    requires 0 < k <= |lines| && IsEmpty(lines[k - 1])
    ensures HasPrevious(lines, k) <==> HasPrevious(lines, k - 1)
    ensures forall j :: IsPrevious(lines, j, k) ==> IsPrevious(lines, j, k - 1)
  {
    if HasPrevious(lines, k) {
      var j :| IsPrevious(lines, j, k);
      assert IsPrevious(lines, j, k - 1);
    }
    if HasPrevious(lines, k - 1) {
      var j :| IsPrevious(lines, j, k - 1);
      assert IsPrevious(lines, j, k);
    }
  }

  lemma {:induction false} LastGroupIs(env: Env, lines: seq<Line>, k: nat)
    requires k <= |lines|
    ensures HasPrevious(lines, k) <==> LastGroup(env, lines[..k]).Some?
    ensures forall j :: IsPrevious(lines, j, k) ==> LastGroup(env, lines[..k]) == Some(GroupAt(env, lines, j))
  {
    if k > 0 {
      assert lines[..k][..k - 1] == lines[..k - 1];
      if IsEmpty(lines[k - 1]) {
        LastGroupIs(env, lines, k - 1);
        PreviousBeforeEmpty(lines, k);
      } else {
        assert IsPrevious(lines, k - 1, k);
      }
    }
  }

  lemma {:induction false} PagePrefix(env: Env, lines: seq<Line>, k: nat)
    requires k <= |lines|
    ensures Page(env, lines[..k]) <= Page(env, lines)
  {
    if k < |lines| {
      PagePrefix(env, lines[..|lines| - 1], k);
      assert lines[..|lines| - 1][..k] == lines[..k];
    } else {
      assert lines[..k] == lines;
    }
  }

  /** A separator and the title of the line's group when the group changes (the title alone for the
      first non-empty line), and nothing otherwise. */
  ghost function HeaderFor(env: Env, lines: seq<Line>, k: nat): seq<Output>
    requires k < |lines|
  {
    var stream := lines[k].stream;
    if !ChangesGroup(env, lines, k) then []
    else
      (if HasPrevious(lines, k) then [Output(stream, "\n")] else []) + [Output(stream, env.title(GroupAt(env, lines, k), stream) + "\n")]
  }

  lemma BlockIs(env: Env, lines: seq<Line>, k: nat)
    requires k < |lines|
    ensures Block(env, LastGroup(env, lines[..k]), lines[k]) == HeaderFor(env, lines, k) + [Shown(env, lines[k])]
  {
    if !IsEmpty(lines[k]) {
      LastGroupIs(env, lines, k);
      if HasPrevious(lines, k) {
        var j :| IsPrevious(lines, j, k);
        assert LastGroup(env, lines[..k]) == Some(GroupAt(env, lines, j));
      }
    }
  }

  lemma PageUpTo(env: Env, lines: seq<Line>, k: nat)
    requires k < |lines|
    ensures Page(env, lines[..k + 1]) == Page(env, lines[..k]) + (HeaderFor(env, lines, k) + [Shown(env, lines[k])])
    ensures Page(env, lines[..k + 1]) <= Page(env, lines)
  {
    BlockAdded(env, lines, k);
    BlockIs(env, lines, k);
    PagePrefix(env, lines, k + 1);
  }

  /** All of the page belongs to some line. */
  lemma BlocksFillPage(env: Env, lines: seq<Line>)
    ensures BlockStart(env, lines, 0) == 0 && BlockStart(env, lines, |lines|) == |Page(env, lines)|
  {
    assert lines[..0] == [] && lines[..|lines|] == lines;
  }

  /** Output `end` - 1 is `last`, and the outputs from `start` up to there are the header. */
  ghost predicate LaidOut(page: seq<Output>, start: nat, end: nat, header: seq<Output>, last: Output) {
    start < end <= |page| && page[end - 1] == last && page[start..end - 1] == header
  }

  lemma SliceOf(page: seq<Output>, before: seq<Output>, upTo: seq<Output>, header: seq<Output>, last: Output)
    requires upTo == before + (header + [last]) && upTo <= page
    ensures LaidOut(page, |before|, |upTo|, header, last)
  {
    assert page[..|upTo|] == upTo;
    assert upTo[|before| + |header|] == last && upTo[|before|..|before| + |header|] == header;
  }

  /** The page is the lines in order, one output each, and between two lines there is only the header
      of the second one. */
  lemma HeaderExactly(env: Env, lines: seq<Line>, k: nat)
    requires k < |lines|
    ensures LaidOut(Page(env, lines), BlockStart(env, lines, k), BlockStart(env, lines, k + 1),
                    HeaderFor(env, lines, k), Shown(env, lines[k]))
  {
    PageUpTo(env, lines, k);
    SliceOf(Page(env, lines), Page(env, lines[..k]), Page(env, lines[..k + 1]), HeaderFor(env, lines, k), Shown(env, lines[k]));
  }
}
