/**
 * The copy loop of `downloadGtfsFeed`: read the HTTP input stream into a
 * 4096-byte buffer until `read` returns -1, writing exactly the bytes read
 * on each pass to the output file.
 */
module StreamCopy {

  newtype byte = x: int | 0 <= x < 256

  /** `GtfsFeed.BUFFER_SIZE`. */
  const BUFFER_SIZE: nat := 4096

  /** What one successful `InputStream.read(buffer)` delivers: 1 to BUFFER_SIZE bytes. */
  type Chunk = c: seq<byte> | 1 <= |c| <= BUFFER_SIZE witness [0]

  /**
   * The response body as the download sees it. `NoStream`: the input
   * stream or the output file could not be opened, so nothing is written.
   * `Stream`: the chunks `read` returned, in order, then either end of
   * stream or (when `interrupted`) an IOException that the source swallows.
   */
  datatype Transfer = NoStream | Stream(chunks: seq<Chunk>, interrupted: bool)

  /** The bytes of the chunks, in order. */
  function Concat(chunks: seq<Chunk>): seq<byte>
  {
    if chunks == [] then [] else chunks[0] + Concat(chunks[1..])
  }

  /** Appending one chunk to the stream appends its bytes to the output. */
  lemma {:induction false} ConcatSnoc(chunks: seq<Chunk>, c: Chunk)
    ensures Concat(chunks + [c]) == Concat(chunks) + c
  {
    if chunks == [] {
      assert [c][1..] == [];
    } else {
      assert (chunks + [c])[1..] == chunks[1..] + [c];
      ConcatSnoc(chunks[1..], c);
    }
  }

  /** Every chunk appears in the output at the offset of the chunks before it. */
  lemma {:induction false} ConcatChunkAt(chunks: seq<Chunk>, k: nat)
    requires k < |chunks|
    ensures |Concat(chunks[..k])| + |chunks[k]| <= |Concat(chunks)|
    ensures Concat(chunks)[|Concat(chunks[..k])|..|Concat(chunks[..k])| + |chunks[k]|] == chunks[k]
  {
    if k == 0 {
      assert chunks[..0] == [];
    } else {
      ConcatChunkAt(chunks[1..], k - 1);
      assert chunks[1..][..k - 1] == chunks[..k][1..];
      assert chunks[1..][k - 1] == chunks[k];
    }
  }

  /**
   * `inputStream.read(buffer)` on a stream positioned after `pos` chunks:
   * -1 at end of stream, otherwise the next chunk is copied to the front of
   * the buffer and its length returned; the rest of the buffer is untouched.
   */
  method Read(input: seq<Chunk>, pos: nat, buffer: array<byte>) returns (bytesRead: int)
    requires buffer.Length == BUFFER_SIZE
    modifies buffer
    ensures pos >= |input| ==> bytesRead == -1 && buffer[..] == old(buffer[..])
    ensures pos < |input| ==> bytesRead == |input[pos]|
    ensures pos < |input| ==> buffer[..bytesRead] == input[pos]
    ensures pos < |input| ==> buffer[bytesRead..] == old(buffer[bytesRead..])
  {
    if pos >= |input| {
      bytesRead := -1;
    } else {
      var chunk := input[pos];
      forall i | 0 <= i < |chunk| {
        buffer[i] := chunk[i];
      }
      bytesRead := |chunk|;
    }
  }

  /** The download loop: the output is the in-order concatenation of the chunks read. */
  method CopyStream(input: seq<Chunk>) returns (output: seq<byte>)
    ensures output == Concat(input)
  {
    var buffer := new byte[BUFFER_SIZE];
    output := [];
    var pos := 0;
    var bytesRead := Read(input, pos, buffer);
    while bytesRead != -1
      invariant 0 <= pos <= |input|
      invariant output == Concat(input[..pos])
      invariant pos < |input| ==> bytesRead == |input[pos]| && buffer[..bytesRead] == input[pos]
      invariant pos == |input| ==> bytesRead == -1
      decreases |input| - pos
    {
      output := output + buffer[..bytesRead];
      assert input[..pos + 1] == input[..pos] + [input[pos]];
      ConcatSnoc(input[..pos], input[pos]);
      pos := pos + 1;
      bytesRead := Read(input, pos, buffer);
    }
    assert input[..pos] == input;
  }
}
