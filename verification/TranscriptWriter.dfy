/** The transcript writer object: per-stream buffers, the group of the last line, and the write calls
    it has made. */
module TranscriptWriter {
  import opened Wrappers
  import opened Ordering
  import opened Transcript
  import opened TranscriptText

  class Writer {
    const env: Env
    var order: seq<Stream>
    var buffers: map<Stream, string>
    var currentGroup: Option<Group>
    var written: seq<Output>
    ghost var lines: seq<Line>

    ghost function Current(): State
      reads this
    {
      State(order, buffers, lines)
    }

    /** What has been written is the page of the lines sent out so far. */
    ghost predicate Valid()
      reads this
    {
      && written == Page(env, lines)
      && currentGroup == LastGroup(env, lines)
      && forall stream :: stream in order ==> stream in buffers
    }

    constructor (env: Env)
      ensures this.env == env && Valid() && Current() == Start()
    {
      this.env := env;
      order, buffers, currentGroup, written, lines := [], map[], None, [], [];
    }

    /** Starts a new group when the line's group is not the current one. */
    method StartGroup(group: Group, stream: Stream)
      modifies this`currentGroup, this`written
      ensures written == old(written) + Header(env, old(currentGroup), group, stream)
      ensures currentGroup == Some(group)
    {
      if Some(group) != currentGroup {
        if currentGroup.Some? {
          written := written + [Output(stream, "\n")];
        }
        written := written + [Output(stream, env.title(group, stream) + "\n")];
        currentGroup := Some(group);
      }
    }

    method EmitLine(rawLine: string, stream: Stream)
      requires Valid()
      modifies this`currentGroup, this`written, this`lines
      ensures Valid() && lines == old(lines) + [Line(stream, rawLine)]
    {
      PageOneMore(env, lines, Line(stream, rawLine));
      ConcatAssociative(written, Header(env, currentGroup, env.groupOf(Chomp(rawLine)), stream),
                        [Output(stream, env.rendered(Chomp(rawLine)))]);
      lines := lines + [Line(stream, rawLine)];
      var line := Chomp(rawLine);
      if |line| == 0 {
        written := written + [Output(stream, "\n")];
        return;
      }
      var group := env.groupOf(line);
      StartGroup(group, stream);
      written := written + [Output(stream, env.rendered(line))];
    }

    method WriteChunk(chunk: string, stream: Stream)
      requires Valid()
      modifies this
      ensures Valid() && Current() == WriteStep(old(Current()), stream, chunk)
    {
      var combined := (if stream in buffers then buffers[stream] else "") + chunk;
      var parts := Split(combined);
      if stream !in buffers {
        order := order + [stream];
      }
      buffers := buffers[stream := parts[|parts| - 1]];
      parts := parts[..|parts| - 1];
      EmitAll(parts, stream);
    }

    /** The loop over the complete lines of a chunk. */
    method EmitAll(parts: seq<string>, stream: Stream)
      requires Valid()
      modifies this`currentGroup, this`written, this`lines
      ensures Valid() && lines == old(lines) + OnStream(stream, parts)
    {
      for k := 0 to |parts|
        invariant Valid() && lines == old(lines) + OnStream(stream, parts[..k])
      {
        OnStreamOneMore(stream, parts, k);
        EmitLine(parts[k], stream);
        ConcatAssociative(old(lines), OnStream(stream, parts[..k]), [Line(stream, parts[k])]);
      }
      assert parts[..|parts|] == parts;
    }

    method FlushAll()
      requires Valid()
      modifies this
      ensures Valid() && Current() == FlushStep(old(Current()), old(order))
    {
      ghost var goal := FlushStep(Current(), order);
      for k := 0 to |order|
        invariant Valid() && order == old(order)
        invariant FlushStep(Current(), order[k..]) == goal
      {
        var stream := order[k];
        assert order[k] in order;
        var buffered := buffers[stream];
        FlushOneMore(Current(), order, k);
        if |buffered| > 0 {
          EmitLine(buffered, stream);
          buffers := buffers[stream := ""];
        }
      }
    }
  }

  /** One turn of the flush loop, on the specification's side. */
  lemma FlushOneMore(s: State, order: seq<Stream>, k: nat)
    requires k < |order|
    ensures FlushStep(s, order[k..]) == FlushStep(FlushOne(s, order[k]), order[k + 1..])
  {
    assert order[k..][0] == order[k] && order[k..][1..] == order[k + 1..];
  }

  /** A whole transcript: the write calls made for any sequence of chunks and flushes are the page of
      the lines that those calls send out. */
  method Transcribe(title: (Group, Stream) -> string, calls: seq<Call>) returns (written: seq<Output>)
    ensures written == Page(Env(title, GroupOf, Rendered), Run(calls).lines)
  {
    var writer := new Writer(Env(title, GroupOf, Rendered));
    for k := 0 to |calls|
      invariant writer.Valid() && writer.Current() == Run(calls[..k])
    {
      assert calls[..k + 1][..k] == calls[..k];
      match calls[k]
      case Write(stream, chunk) => writer.WriteChunk(chunk, stream);
      case Flush => writer.FlushAll();
    }
    assert calls[..|calls|] == calls;
    written := writer.written;
  }
}
