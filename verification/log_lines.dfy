/**
 The writer that turns a guest's output bytes into log lines
 (`fn0/fn0/src/execute.rs`). Bytes arrive in writes of any size; a line is
 emitted when its newline arrives, and what is left at shutdown is the last
 line. The lossy UTF-8 decoder is a parameter.
 */
module LogLines {
  import opened DocTypes
  import opened Collections

  const NEWLINE: byte := 10

  type Decoder = seq<byte> -> string

  /**
   What the decoder is assumed to do: it makes nothing of no bytes, and
   invents no line break.
   */
  ghost predicate InventsNothing(decode: Decoder) {
    && decode([]) == []
    && forall bytes: seq<byte> :: NEWLINE !in bytes ==> '\n' !in decode(bytes)
  }

  function TrimEnd(text: string, strip: set<char>): (r: string)
    ensures r <= text
    ensures r != [] ==> r[|r| - 1] !in strip
    ensures forall i :: |r| <= i < |text| ==> text[i] in strip
  {
    if text != [] && text[|text| - 1] in strip then TrimEnd(text[..|text| - 1], strip) else text
  }

  /** The line made of `piece`, if anything is left of it after trimming. */
  function Emit(decode: Decoder, piece: seq<byte>, strip: set<char>): seq<string> {
    var text := TrimEnd(decode(piece), strip);
    if text == [] then [] else [text]
  }

  /**
   A line is emitted exactly when its text has a character that is not stripped, and
   then it is the text up to the last such character.
   */
  lemma EmitsUpToLastKept(decode: Decoder, piece: seq<byte>, strip: set<char>)
    ensures Emit(decode, piece, strip) != [] <==> exists c :: c in decode(piece) && c !in strip
    ensures forall k :: 0 <= k < |decode(piece)| && decode(piece)[k] !in strip
                        && (forall j :: k < j < |decode(piece)| ==> decode(piece)[j] in strip) ==>
              Emit(decode, piece, strip) == [decode(piece)[..k + 1]]
  {
    var text := decode(piece);
    var kept := TrimEnd(text, strip);
    if kept != [] {
      assert text[|kept| - 1] == kept[|kept| - 1];
    }
    forall k | 0 <= k < |text| && text[k] !in strip && (forall j :: k < j < |text| ==> text[j] in strip)
      ensures Emit(decode, piece, strip) == [text[..k + 1]]
    {
      assert |kept| == k + 1;
      assert kept == text[..|kept|];
    }
  }

  /** The position of the first newline, or the length when there is none. */
  function FirstBreak(bytes: seq<byte>): (p: nat)
    ensures p <= |bytes|
  {
    if bytes == [] || bytes[0] == NEWLINE then 0 else 1 + FirstBreak(bytes[1..])
  }

  lemma {:induction false} FirstBreakFinds(bytes: seq<byte>)
    ensures NEWLINE !in bytes[..FirstBreak(bytes)]
    ensures FirstBreak(bytes) < |bytes| ==> bytes[FirstBreak(bytes)] == NEWLINE
  {
    if bytes != [] && bytes[0] != NEWLINE {
      FirstBreakFinds(bytes[1..]);
      assert bytes[..FirstBreak(bytes)] == [bytes[0]] + bytes[1..][..FirstBreak(bytes[1..])];
    }
  }

  /**
   The reference: the non-empty trimmed lines of a whole stream, the text
   after the last newline counting as a line.
   */
  function Lines(decode: Decoder, bytes: seq<byte>): seq<string> {
    var p := FirstBreak(bytes);
    if p == |bytes| then Emit(decode, bytes, {'\r'})
    else Emit(decode, bytes[..p], {'\r'}) + Lines(decode, bytes[p + 1..])
  }

  /**
   The lines of a stream whose newline has arrived, and the bytes after the
   last newline.
   */
  function Complete(decode: Decoder, bytes: seq<byte>): seq<string> {
    var p := FirstBreak(bytes);
    if p == |bytes| then []
    else Emit(decode, bytes[..p], {'\r'}) + Complete(decode, bytes[p + 1..])
  }

  function Rest(bytes: seq<byte>): seq<byte> {
    var p := FirstBreak(bytes);
    if p == |bytes| then bytes else Rest(bytes[p + 1..])
  }

  lemma Reassemble(bytes: seq<byte>, p: nat, between: seq<byte>, rest: seq<byte>)
    requires p < |bytes| && bytes[p + 1..] == between + rest
    ensures bytes == bytes[..p + 1] + between + rest
    ensures var before := bytes[..p + 1] + between;
            before[|before| - 1] == if between == [] then bytes[p] else between[|between| - 1]
  {
    assert bytes == bytes[..p + 1] + bytes[p + 1..];
  }

  /**
   The rest is a newline-free tail that starts the stream or follows a
   newline.
   */
  lemma {:induction false} RestIsTheLastLine(bytes: seq<byte>) returns (before: seq<byte>)
    ensures NEWLINE !in Rest(bytes) && FirstBreak(Rest(bytes)) == |Rest(bytes)|
    ensures bytes == before + Rest(bytes)
    ensures before == [] || before[|before| - 1] == NEWLINE
  {
    FirstBreakFinds(bytes);
    var p := FirstBreak(bytes);
    if p == |bytes| {
      assert bytes[..p] == bytes;
      before := [];
    } else {
      var between := RestIsTheLastLine(bytes[p + 1..]);
      before := bytes[..p + 1] + between;
      Reassemble(bytes, p, between, Rest(bytes));
    }
  }

  lemma {:induction false} FirstBreakExtends(bytes: seq<byte>, more: seq<byte>)
    requires FirstBreak(bytes) < |bytes|
    ensures FirstBreak(bytes + more) == FirstBreak(bytes)
    ensures (bytes + more)[..FirstBreak(bytes)] == bytes[..FirstBreak(bytes)]
    ensures (bytes + more)[FirstBreak(bytes) + 1..] == bytes[FirstBreak(bytes) + 1..] + more
  {
    if bytes[0] != NEWLINE {
      FirstBreakExtends(bytes[1..], more);
      assert (bytes + more)[1..] == bytes[1..] + more;
    }
  }

  lemma {:induction false} FirstBreakBetween(before: seq<byte>, after: seq<byte>)
    requires FirstBreak(before) == |before|
    ensures FirstBreak(before + [NEWLINE] + after) == |before|
  {
    if before != [] {
      FirstBreakBetween(before[1..], after);
      assert (before + [NEWLINE] + after)[1..] == before[1..] + [NEWLINE] + after;
    }
  }

  lemma SplitAtFirst(decode: Decoder, before: seq<byte>, after: seq<byte>)
    requires FirstBreak(before) == |before|
    ensures Lines(decode, before + [NEWLINE] + after) == Lines(decode, before) + Lines(decode, after)
  {
    var whole := before + [NEWLINE] + after;
    FirstBreakBetween(before, after);
    assert whole[..|before|] == before && whole[|before| + 1..] == after;
  }

  lemma TailOfWhole(before: seq<byte>, after: seq<byte>, p: nat)
    requires p == FirstBreak(before) < |before|
    ensures var whole := before + [NEWLINE] + after;
            && FirstBreak(whole) == p < |whole|
            && whole[..p] == before[..p]
            && whole[p + 1..] == before[p + 1..] + [NEWLINE] + after
  {
    Regroup(before, [NEWLINE], after);
    FirstBreakExtends(before, [NEWLINE] + after);
    Regroup(before[p + 1..], [NEWLINE], after);
  }

  lemma {:induction false} SplitLater(decode: Decoder, before: seq<byte>, after: seq<byte>, p: nat)
    requires p == FirstBreak(before) < |before|
    requires var tail := before[p + 1..];
             Lines(decode, tail + [NEWLINE] + after) == Lines(decode, tail) + Lines(decode, after)
    ensures Lines(decode, before + [NEWLINE] + after) == Lines(decode, before) + Lines(decode, after)
  {
    TailOfWhole(before, after, p);
    var line, tail := Emit(decode, before[..p], {'\r'}), before[p + 1..];
    assert Lines(decode, before) == line + Lines(decode, tail);
    assert Lines(decode, before + [NEWLINE] + after) == line + Lines(decode, tail + [NEWLINE] + after);
    Regroup(line, Lines(decode, tail), Lines(decode, after));
  }

  /**
   The lines of a stream with a newline in it are the lines before and the
   lines after, wherever that newline is.
   */
  lemma {:induction false} LinesSplit(decode: Decoder, before: seq<byte>, after: seq<byte>)
    ensures Lines(decode, before + [NEWLINE] + after) == Lines(decode, before) + Lines(decode, after)
    decreases |before|
  {
    var p := FirstBreak(before);
    if p == |before| {
      SplitAtFirst(decode, before, after);
    } else {
      LinesSplit(decode, before[p + 1..], after);
      SplitLater(decode, before, after, p);
    }
  }

  /**
   Emitting what is complete and keeping the rest loses nothing, whatever
   comes next.
   */
  lemma {:induction false} CompleteThenRest(decode: Decoder, bytes: seq<byte>, more: seq<byte>)
    ensures Lines(decode, bytes + more) == Complete(decode, bytes) + Lines(decode, Rest(bytes) + more)
    decreases |bytes|
  {
    var p := FirstBreak(bytes);
    if p < |bytes| {
      var tail := bytes[p + 1..];
      FirstBreakExtends(bytes, more);
      CompleteThenRest(decode, tail, more);
      Regroup(Emit(decode, bytes[..p], {'\r'}), Complete(decode, tail), Lines(decode, Rest(tail) + more));
    }
  }

  /** One turn of the writer's loop. */
  lemma {:induction false} TakeLine(decode: Decoder, emitted: seq<string>, bytes: seq<byte>, p: nat)
    requires p == FirstBreak(bytes) < |bytes|
    ensures emitted + Emit(decode, bytes[..p], {'\r'}) + Complete(decode, bytes[p + 1..])
         == emitted + Complete(decode, bytes)
    ensures Rest(bytes[p + 1..]) == Rest(bytes)
  {
    var line, tail := Emit(decode, bytes[..p], {'\r'}), Complete(decode, bytes[p + 1..]);
    assert Complete(decode, bytes) == line + tail;
    Regroup(emitted, line, tail);
  }

  /**
   Stripping newlines as well at shutdown changes nothing, as the buffer
   never holds one.
   */
  lemma {:induction false} TrimsAlike(text: string)
    requires '\n' !in text
    ensures TrimEnd(text, {'\r', '\n'}) == TrimEnd(text, {'\r'})
  {
    if text != [] {
      assert text[|text| - 1] in text;
      TrimsAlike(text[..|text| - 1]);
    }
  }

  function Concat(chunks: seq<seq<byte>>): seq<byte> {
    if chunks == [] then [] else chunks[0] + Concat(chunks[1..])
  }

  /**
   Everything emitted when `chunks` are written one by one onto a buffer and
   the writer is then shut down.
   */
  function Emitted(decode: Decoder, buffer: seq<byte>, chunks: seq<seq<byte>>): seq<string>
    decreases |chunks|
  {
    if chunks == [] then
      if buffer == [] then [] else Emit(decode, buffer, {'\r', '\n'})
    else
      Complete(decode, buffer + chunks[0]) + Emitted(decode, Rest(buffer + chunks[0]), chunks[1..])
  }

  lemma ShutdownEmits(decode: Decoder, buffer: seq<byte>)
    requires InventsNothing(decode)
    requires NEWLINE !in buffer && FirstBreak(buffer) == |buffer|
    ensures Emitted(decode, buffer, []) == Lines(decode, buffer)
  {
    TrimsAlike(decode(buffer));
  }

  /** One write: what it completes, and then the lines of what is left with what is still to come. */
  lemma WriteEmits(decode: Decoder, buffer: seq<byte>, chunk: seq<byte>, more: seq<byte>, emitted: seq<string>)
    requires emitted == Lines(decode, Rest(buffer + chunk) + more)
    ensures Complete(decode, buffer + chunk) + emitted == Lines(decode, buffer + (chunk + more))
  {
    CompleteThenRest(decode, buffer + chunk, more);
    Regroup(buffer, chunk, more);
  }

  lemma {:induction false} EmittedFrom(decode: Decoder, buffer: seq<byte>, chunks: seq<seq<byte>>)
    requires InventsNothing(decode)
    requires NEWLINE !in buffer && FirstBreak(buffer) == |buffer|
    ensures Emitted(decode, buffer, chunks) == Lines(decode, buffer + Concat(chunks))
    decreases |chunks|
  {
    if chunks == [] {
      NothingAdded(buffer, Concat(chunks));
      ShutdownEmits(decode, buffer);
    } else {
      var before := RestIsTheLastLine(buffer + chunks[0]);
      EmittedFrom(decode, Rest(buffer + chunks[0]), chunks[1..]);
      WriteEmits(decode, buffer, chunks[0], Concat(chunks[1..]), Emitted(decode, Rest(buffer + chunks[0]), chunks[1..]));
    }
  }

  /**
   However a stream is cut into writes, the lines emitted are those of the
   stream.
   */
  lemma ChunkingIsInvisible(decode: Decoder, chunks: seq<seq<byte>>)
    requires InventsNothing(decode)
    ensures Emitted(decode, [], chunks) == Lines(decode, Concat(chunks))
  {
    EmittedFrom(decode, [], chunks);
    assert [] + Concat(chunks) == Concat(chunks);
  }

  class TracingWriter {
    const decode: Decoder
    var buf: seq<byte>
    /** The lines handed to the log so far. */
    var emitted: seq<string>

    constructor (decode: Decoder)
      ensures this.decode == decode && buf == [] && emitted == []
    {
      this.decode := decode;
      buf, emitted := [], [];
    }

    /** Logs the line made of `piece` unless trimming leaves nothing of it. */
    method EmitLine(piece: seq<byte>, strip: set<char>)
      modifies `emitted
      ensures emitted == old(emitted) + Emit(decode, piece, strip)
    {
      var trimmed := TrimEnd(decode(piece), strip);
      if trimmed != [] {
        emitted := emitted + [trimmed];
      }
    }

    /** Accepts every byte, emits the lines they complete and keeps the rest. */
    method PollWrite(data: seq<byte>) returns (accepted: nat)
      modifies this
      ensures accepted == |data|
      ensures emitted == old(emitted) + Complete(decode, old(buf) + data)
      ensures buf == Rest(old(buf) + data)
    {
      buf := buf + data;
      ghost var lines, rest := emitted + Complete(decode, buf), Rest(buf);
      var pos := FirstBreak(buf);
      while pos < |buf|
        invariant pos == FirstBreak(buf)
        invariant emitted + Complete(decode, buf) == lines
        invariant Rest(buf) == rest
        decreases |buf|
      {
        TakeLine(decode, emitted, buf, pos);
        EmitLine(buf[..pos], {'\r'});
        buf := buf[pos + 1..];
        pos := FirstBreak(buf);
      }
      assert emitted + [] == emitted;
      return |data|;
    }

    /** Emits what is left as the last line. */
    method PollShutdown()
      modifies this
      ensures buf == []
      ensures old(buf) != [] ==> emitted == old(emitted) + Emit(decode, old(buf), {'\r', '\n'})
      ensures old(buf) == [] ==> emitted == old(emitted)
    {
      if buf != [] {
        EmitLine(buf, {'\r', '\n'});
        buf := [];
      }
    }
  }
}
