/**
 * The server-sent-event client: an incremental line splitter over decoded chunks, and the
 * reconnect backoff.
 */
module SseStream {
  import opened Text

  const MIN_BACKOFF := 1000
  const MAX_BACKOFF := 30000
  const PREFIX := "data: "

  /** The lines of a text that a line feed has ended. */
  function CompleteLines(s: string): seq<string> {
    Split('\n', s)[..|Split('\n', s)| - 1]
  }

  /** What the data lines carry, in order; comments and other fields carry nothing. */
  function Payloads(lines: seq<string>): seq<string> {
    if lines == [] then []
    else (if PREFIX <= lines[0] then [lines[0][|PREFIX|..]] else []) + Payloads(lines[1..])
  }

  lemma {:induction false} PayloadsAppend(a: seq<string>, b: seq<string>)
    ensures Payloads(a + b) == Payloads(a) + Payloads(b)
  {
    if a == [] {
      assert a + b == b;
    } else {
      assert (a + b)[1..] == a[1..] + b;
      PayloadsAppend(a[1..], b);
    }
  }

  lemma PayloadsOfOne(line: string)
    ensures Payloads([line]) == if PREFIX <= line then [line[|PREFIX|..]] else []
  {
  }

  /** A line counts only if it starts with "data: ", and what follows is the payload. */
  lemma PayloadOfLine(line: string)
    ensures Payloads(["data: " + line]) == [line]
    ensures !("data: " <= line) ==> Payloads([line]) == []
  {
    PayloadsOfOne("data: " + line);
    assert ("data: " + line)[6..] == line;
  }

  function Concat(chunks: seq<string>): string {
    if chunks == [] then "" else Concat(chunks[..|chunks| - 1]) + chunks[|chunks| - 1]
  }

  function Pow2(k: nat): nat { if k == 0 then 1 else 2 * Pow2(k - 1) }

  function Delay(k: nat): int {
    if MIN_BACKOFF * Pow2(k) < MAX_BACKOFF then MIN_BACKOFF * Pow2(k) else MAX_BACKOFF
  }

  lemma {:induction false} DelayReachesCap(k: nat)
    ensures Delay(k) == 30000 <==> k >= 5
    ensures 1000 <= Delay(k) <= Delay(k + 1) <= 30000
    ensures Delay(0) == 1000 && Delay(k + 1) == if 2 * Delay(k) < 30000 then 2 * Delay(k) else 30000
  {
    assert Pow2(1) == 2 && Pow2(2) == 4 && Pow2(3) == 8 && Pow2(4) == 16;
    if k > 5 { DelayReachesCap(k - 1); }
  }

  /** Appending a chunk and re-splitting the buffer is splitting the longer text. */
  lemma ChunkExtends(text: string, chunk: string)
    ensures var lines := Split('\n', LastOf(Split('\n', text)) + chunk);
            && LastOf(Split('\n', text + chunk)) == LastOf(lines)
            && Payloads(CompleteLines(text + chunk)) == Payloads(CompleteLines(text)) + Payloads(lines[..|lines| - 1])
  {
    var lines := Split('\n', LastOf(Split('\n', text)) + chunk);
    SplitAppend('\n', text, chunk);
    assert CompleteLines(text + chunk) == CompleteLines(text) + lines[..|lines| - 1];
    PayloadsAppend(CompleteLines(text), lines[..|lines| - 1]);
  }

  method DataOf(lines: seq<string>) returns (payloads: seq<string>)
    ensures payloads == Payloads(lines)
  {
    payloads := [];
    for i := 0 to |lines|
      invariant payloads == Payloads(lines[..i])
    {
      var line := lines[i];
      assert lines[..i + 1] == lines[..i] + [line];
      PayloadsAppend(lines[..i], [line]);
      PayloadsOfOne(line);
      if PREFIX <= line {
        payloads := payloads + [line[|PREFIX|..]];
      }
    }
    assert lines[..|lines|] == lines;
  }

  class SseClient {
    var buffer: string
    /** Everything handed to the JSON parser on this connection. */
    var handed: seq<string>
    var backoff: int
    /** All the text of this connection, and the reconnects since the last one that succeeded. */
    ghost var text: string
    ghost var failures: nat

    ghost predicate Valid()
      reads this
    {
      && buffer == LastOf(Split('\n', text))
      && handed == Payloads(CompleteLines(text))
      && backoff == Delay(failures)
    }

    constructor ()
      ensures Valid() && text == "" && failures == 0
    {
      buffer, handed, backoff := "", [], MIN_BACKOFF;
      text, failures := "", 0;
    }

    /** A response arrived: a fresh buffer, and the backoff starts over. */
    method Connected()
      requires Valid()
      modifies this
      ensures Valid() && text == "" && failures == 0
    {
      buffer, handed, backoff := "", [], MIN_BACKOFF;
      text, failures := "", 0;
    }

    method OnChunk(chunk: string)
      requires Valid()
      modifies this
      ensures Valid() && text == old(text) + chunk && failures == old(failures)
    {
      ChunkExtends(text, chunk);
      buffer := buffer + chunk;
      var lines := Split('\n', buffer);
      buffer := LastOf(lines);
      lines := lines[..|lines| - 1];
      var payloads := DataOf(lines);
      handed := handed + payloads;
      text := text + chunk;
    }

    method ScheduleReconnect() returns (delay: int)
      requires Valid()
      modifies this
      ensures Valid() && delay == Delay(old(failures)) && failures == old(failures) + 1
      ensures text == old(text)
    {
      delay := if backoff < MAX_BACKOFF then backoff else MAX_BACKOFF;
      backoff := if delay * 2 < MAX_BACKOFF then delay * 2 else MAX_BACKOFF;
      failures := failures + 1;
    }

    /** However the stream is cut, the parser is handed the data lines of the whole text. */
    method Consume(chunks: seq<string>)
      requires Valid() && text == ""
      modifies this
      ensures Valid() && handed == Payloads(CompleteLines(Concat(chunks)))
      ensures buffer == LastOf(Split('\n', Concat(chunks)))
    {
      for i := 0 to |chunks|
        invariant Valid() && text == Concat(chunks[..i])
      {
        assert chunks[..i + 1][..i] == chunks[..i];
        OnChunk(chunks[i]);
      }
      assert chunks[..|chunks|] == chunks;
    }
  }
}
