/**
 * The incremental line reader of the workflow host (services/workflow-python/workflow_host.py,
 * `read_protocol_line`): newline-terminated messages out of a byte stream that arrives in arbitrary chunks.
 */
module LineReader {
  import opened Common

  const NEWLINE: Byte := 10
  const READ_SIZE := 65536

  // ---- Splitting a stream into lines --------------------------------------------------------------

  /** A newline, if any, is the last byte. */
  ghost predicate OneLine(line: Bytes) {
    line != [] && forall i :: 0 <= i < |line| - 1 ==> line[i] != 10
  }

  ghost predicate Terminated(line: Bytes) { line != [] && line[|line| - 1] == 10 }

  function Join(parts: seq<Bytes>): Bytes {
    if parts == [] then [] else parts[0] + Join(parts[1..])
  }

  /** `lines` is `stream` cut after each newline, with an unterminated tail if there is one. */
  ghost predicate IsSplit(lines: seq<Bytes>, stream: Bytes) {
    && Join(lines) == stream
    && (forall k :: 0 <= k < |lines| ==> OneLine(lines[k]))
    && (forall k :: 0 <= k < |lines| - 1 ==> Terminated(lines[k]))
  }

  /** `line` is what one call owes on `stream`: empty only at the end, else one line of it. */
  ghost predicate IsFirst(line: Bytes, rest: Bytes, stream: Bytes) {
    && line + rest == stream
    && (line == [] <==> stream == [])
    && (line != [] ==> OneLine(line))
    && (rest != [] ==> Terminated(line))
  }

  lemma FirstOfSplit(lines: seq<Bytes>, stream: Bytes)
    requires IsSplit(lines, stream) && lines != []
    ensures IsFirst(lines[0], Join(lines[1..]), stream)
    ensures IsSplit(lines[1..], Join(lines[1..]))
  {
    if |lines| == 1 {
      assert Join(lines[1..]) == [];
    }
  }

  /** There is only one way to take the first line. */
  lemma FirstUnique(a: Bytes, restA: Bytes, b: Bytes, restB: Bytes, stream: Bytes)
    requires IsFirst(a, restA, stream) && IsFirst(b, restB, stream)
    ensures a == b && restA == restB
  {
    NotLonger(a, restA, b, restB, stream);
    NotLonger(b, restB, a, restA, stream);
    assert a == stream[..|a|] && b == stream[..|b|];
    assert restA == stream[|a|..] && restB == stream[|b|..];
  }

  /** A longer first line would have the shorter one's newline inside. */
  lemma NotLonger(a: Bytes, restA: Bytes, b: Bytes, restB: Bytes, stream: Bytes)
    requires IsFirst(a, restA, stream) && IsFirst(b, restB, stream)
    ensures |b| <= |a|
  {
    if restA != [] {
      assert stream[|a| - 1] == NEWLINE;
      assert forall i :: 0 <= i < |b| - 1 ==> stream[i] == b[i];
    }
  }

  lemma {:induction false} SplitUnique(a: seq<Bytes>, b: seq<Bytes>, stream: Bytes)
    requires IsSplit(a, stream) && IsSplit(b, stream)
    ensures a == b
    decreases |a|
  {
    if a == [] {
      if b != [] {
        FirstOfSplit(b, stream);
      }
    } else if b == [] {
      FirstOfSplit(a, stream);
    } else {
      FirstOfSplit(a, stream);
      FirstOfSplit(b, stream);
      FirstUnique(a[0], Join(a[1..]), b[0], Join(b[1..]), stream);
      SplitUnique(a[1..], b[1..], Join(a[1..]));
    }
  }

  lemma JoinSnoc(parts: seq<Bytes>, last: Bytes)
    ensures Join(parts + [last]) == Join(parts) + last
  {
    if parts == [] {
      assert parts + [last] == [last];
    } else {
      JoinSnoc(parts[1..], last);
      assert (parts + [last])[1..] == parts[1..] + [last];
    }
  }

  // ---- The reader -------------------------------------------------------------------------------------

  /** `bytes.find(b"\n", start)` */
  method FindNewline(buffer: Bytes, start: nat) returns (at: int)
    requires start <= |buffer|
    ensures at == -1 ==> forall i :: start <= i < |buffer| ==> buffer[i] != NEWLINE
    ensures at != -1 ==> start <= at < |buffer| && buffer[at] == NEWLINE
                         && forall i :: start <= i < at ==> buffer[i] != NEWLINE
  {
    for n := start to |buffer|
      invariant forall i :: start <= i < n ==> buffer[i] != NEWLINE
    {
      if buffer[n] == NEWLINE {
        return n;
      }
    }
    at := -1;
  }

  ghost predicate NoNewline(s: Bytes) { forall i :: 0 <= i < |s| ==> s[i] != NEWLINE }

  lemma NoneFound(buffer: Bytes, start: nat)
    requires start <= |buffer| && NoNewline(buffer[..start])
    requires forall i :: start <= i < |buffer| ==> buffer[i] != NEWLINE
    ensures NoNewline(buffer)
  {
    forall i | 0 <= i < start ensures buffer[i] != NEWLINE {
      assert buffer[..start][i] == buffer[i];
    }
  }

  lemma TakeLine(buffer: Bytes, start: nat, n: nat, tail: Bytes)
    requires start <= n < |buffer| && buffer[n] == NEWLINE && NoNewline(buffer[..start])
    requires forall i :: start <= i < n ==> buffer[i] != NEWLINE
    ensures IsFirst(buffer[..n + 1], buffer[n + 1..] + tail, buffer + tail)
  {
    forall i | 0 <= i < start ensures buffer[i] != NEWLINE {
      assert buffer[..start][i] == buffer[i];
    }
  }

  lemma TakeRest(buffer: Bytes)
    requires NoNewline(buffer)
    ensures IsFirst(buffer, [] + Join([]), buffer + Join([]))
  {}

  lemma Extended(buffer: Bytes, chunk: Bytes, tail: Bytes, whole: Bytes)
    requires chunk + tail == whole && NoNewline(buffer)
    ensures (buffer + chunk) + tail == buffer + whole
    ensures NoNewline((buffer + chunk)[..|buffer|])
  {}

  /** A pipe delivers its bytes in nonempty chunks until the end of the file. */
  ghost predicate Chunked(chunks: seq<Bytes>) {
    forall k :: 0 <= k < |chunks| ==> 1 <= |chunks[k]| <= READ_SIZE
  }

  class Host {
    /** Bytes received and not yet returned. */
    var buffer: Bytes
    /** Chunks the next reads will deliver. */
    var chunks: seq<Bytes>

    ghost predicate Valid()
      reads this
    {
      Chunked(chunks)
    }

    /** What is still to be returned. */
    ghost function Stream(): Bytes
      reads this
    {
      buffer + Join(chunks)
    }

    constructor (chunks: seq<Bytes>)
      requires Chunked(chunks)
      ensures Valid() && Stream() == Join(chunks)
    {
      this.buffer, this.chunks := [], chunks;
    }

    /** `reader.read`: the next chunk, empty at the end of the file. */
    method Read() returns (chunk: Bytes)
      requires Valid()
      modifies this`chunks
      ensures Valid() && (chunk == [] <==> old(chunks) == [])
      ensures chunk + Join(chunks) == Join(old(chunks)) && |chunks| <= |old(chunks)|
      ensures chunk != [] ==> |chunks| < |old(chunks)|
    {
      if chunks == [] {
        chunk := [];
      } else {
        chunk, chunks := chunks[0], chunks[1..];
      }
    }

    /**
     * `read_protocol_line`. The call may be cancelled at any read (after `patience` of them); a cancelled
     * call returns None and leaves the stream to the next call as it was.
     */
    method ReadProtocolLine(patience: Option<nat>) returns (line: Option<Bytes>)
      requires Valid()
      modifies this
      ensures Valid()
      ensures line.None? ==> patience.Some? && Stream() == old(Stream())
      ensures line.Some? ==> IsFirst(line.value, Stream(), old(Stream()))
    {
      var searchFrom: nat, waits: nat := 0, 0;
      ghost var stream := Stream();
      while true
        invariant Chunked(chunks) && buffer + Join(chunks) == stream
        invariant searchFrom <= |buffer| && NoNewline(buffer[..searchFrom])
        decreases |chunks|
      {
        var newline := FindNewline(buffer, searchFrom);
        if newline >= 0 {
          TakeLine(buffer, searchFrom, newline, Join(chunks));
          line := Some(buffer[..newline + 1]);
          buffer := buffer[newline + 1..];
          return;
        }
        NoneFound(buffer, searchFrom);
        searchFrom := |buffer|;
        if patience == Some(waits) {
          return None;
        }
        ghost var tail := Join(chunks);
        var chunk := Read();
        waits := waits + 1;
        if chunk != [] {
          Extended(buffer, chunk, Join(chunks), tail);
          buffer := buffer + chunk;
          continue;
        }
        TakeRest(buffer);
        line := Some(buffer);
        buffer := [];
        return;
      }
    }

    /** Calls until one returns empty, as the host's main loop makes them: exactly the lines of the stream. */
    method ReadAll() returns (lines: seq<Bytes>)
      requires Valid()
      modifies this
      ensures IsSplit(lines, old(Stream()))
      ensures Valid() && Stream() == []
    {
      lines := [];
      while true
        invariant Valid() && Join(lines) + Stream() == old(Stream())
        invariant forall k :: 0 <= k < |lines| ==> OneLine(lines[k])
        invariant forall k :: 0 <= k < |lines| - 1 ==> Terminated(lines[k])
        invariant lines != [] && Stream() != [] ==> Terminated(lines[|lines| - 1])
        decreases |Stream()|
      {
        var line := ReadProtocolLine(None);
        if line.value == [] {
          return;
        }
        JoinSnoc(lines, line.value);
        lines := lines + [line.value];
      }
    }
  }
}
