/** The Java I/O objects the dashboard record handles: an `InputStream` over
    bytes, and the `BufferedReader` over an `InputStreamReader` that
    `Metadata.getContent` reads it through. */
module Streams {
  import opened Base
  import opened LineBreaks

  datatype IOException = IOException

  /** The charset a reader decodes with. `Charset.defaultCharset()` depends on
      the platform, so the model takes the decoding as a parameter. */
  datatype Charset = Charset(decode: seq<Byte> -> string)

  /** What one call of `InputStream.read()` gives. */
  datatype ReadResult = Data(b: Byte) | EndOfStream | ReadError(e: IOException)

  /** A byte-readable stream with a read position. The two fault fields say
      where a stream of unspecified origin fails: reading the byte at index
      failAt (or, when failAt is |data|, probing for the end) raises an
      IOException, and closeFails makes close raise one. */
  class ByteStream {
    var data: seq<Byte>
    var pos: nat
    var closed: bool
    var failAt: Option<nat>
    var closeFails: bool

    ghost predicate Valid()
      reads this
    {
      pos <= |data|
    }

    /** `new ByteArrayInputStream(bytes)`: positioned at the first byte, never failing. */
    constructor OverBytes(bytes: seq<Byte>)
      ensures Valid()
      ensures data == bytes && pos == 0 && !closed && failAt == None && !closeFails
    {
      data, pos, closed := bytes, 0, false;
      failAt, closeFails := None, false;
    }

    /** An open stream over bytes, with the given faults. */
    constructor WithFaults(bytes: seq<Byte>, failAt: Option<nat>, closeFails: bool)
      ensures Valid()
      ensures data == bytes && pos == 0 && !closed && this.failAt == failAt && this.closeFails == closeFails
    {
      data, pos, closed := bytes, 0, false;
      this.failAt, this.closeFails := failAt, closeFails;
    }

    /** The bytes not read yet. */
    function Remaining(): seq<Byte>
      reads this
      requires Valid()
    {
      data[pos..]
    }

    /** True when reading the stream to its end would raise an IOException. */
    predicate FaultAhead()
      reads this
    {
      failAt.Some? && pos <= failAt.value <= |data|
    }

    /** `read()`: the next byte, or the end of the stream, or the injected fault. */
    method Read() returns (r: ReadResult)
      requires Valid() && !closed
      modifies this`pos
      ensures Valid()
      ensures failAt == Some(old(pos)) ==> r == ReadError(IOException) && pos == old(pos)
      ensures failAt != Some(old(pos)) && old(pos) == |data| ==> r == EndOfStream && pos == old(pos)
      ensures failAt != Some(old(pos)) && old(pos) < |data| ==> r == Data(data[old(pos)]) && pos == old(pos) + 1
    {
      if failAt == Some(pos) {
        r := ReadError(IOException);
      } else if pos == |data| {
        r := EndOfStream;
      } else {
        r := Data(data[pos]);
        pos := pos + 1;
      }
    }

    /** `close()`: the stream is closed whether or not closing raises. */
    method Close() returns (r: Outcome<IOException>)
      modifies this`closed
      ensures closed
      ensures r == if closeFails then Fail(IOException) else Pass
    {
      closed := true;
      r := if closeFails then Fail(IOException) else Pass;
    }
  }

  /** True when, in text t with the unread part starting at i, a call of
      `readLine` that returns line leaves the unread part starting at j. */
  predicate ReadsLine(t: string, i: nat, line: Option<string>, j: nat) {
    i <= |t| &&
    match NextLine(t, i)
    case None => line == None && j == i
    case Some((l, n)) => line == Some(l) && j == n
  }

  /** A `BufferedReader` over an `InputStreamReader` over source. Its buffer
      holds the decoded text of source; the first `readLine` fills it, and
      next is the index of the first character not yet returned. */
  class LineReader {
    const source: ByteStream
    const charset: Charset
    var buf: string
    var next: nat
    var filled: bool
    /** The text not returned yet: the rest of the buffer once it is filled,
        before that the decoding of what the stream still holds. */
    ghost var unread: string

    ghost predicate Valid()
      reads this, source
    {
      && source.Valid() && next <= |buf|
      && (!filled ==> buf == [] && next == 0 && unread == charset.decode(source.Remaining()))
      && (filled ==> unread == buf[next..])
    }

    /** Wrapping a stream reads nothing from it. */
    constructor (source: ByteStream, charset: Charset)
      requires source.Valid()
      ensures Valid() && this.source == source && this.charset == charset && !filled
    {
      this.source, this.charset := source, charset;
      buf, next, filled := [], 0, false;
      unread := charset.decode(source.Remaining());
    }

    /** Reads source to its end and decodes what was read. An IOException
        stops the read at the failing byte and leaves the buffer empty. */
    method Fill() returns (r: Outcome<IOException>)
      requires Valid() && !filled && !source.closed
      modifies this, source`pos
      ensures Valid()
      ensures r.Fail? <==> old(source.FaultAhead())
      ensures r.Pass? ==> unread == old(unread)
      ensures r.Pass? ==> filled && next == 0 && buf == charset.decode(old(source.Remaining()))
      ensures r.Pass? ==> source.pos == |source.data|
      ensures r.Fail? ==> !filled && buf == [] && source.pos == source.failAt.value
    {
      ghost var start := source.pos;
      var bytes := [];
      while true
        modifies source`pos, this`unread
        invariant source.Valid() && start <= source.pos
        invariant bytes == source.data[start..source.pos] && unread == old(unread)
        invariant source.failAt.Some? && start <= source.failAt.value ==> source.pos <= source.failAt.value
        decreases |source.data| - source.pos
      {
        var b := source.Read();
        match b
        case ReadError(e) =>
          unread := charset.decode(source.Remaining());
          return Fail(e);
        case EndOfStream =>
          break;
        case Data(x) =>
          bytes := bytes + [x];
      }
      assert source.pos == |source.data| && bytes == old(source.Remaining());
      buf, next, filled := charset.decode(bytes), 0, true;
      assert buf[next..] == buf;
      r := Pass;
    }

    /** `readLine()`: the next line without its terminator, or None at the
        end of the text. */
    method ReadLine() returns (r: Result<Option<string>, IOException>)
      requires Valid() && (!filled ==> !source.closed)
      modifies this, source`pos
      ensures Valid()
      ensures r.Failure? <==> !old(filled) && old(source.FaultAhead())
      ensures r.Failure? ==> !filled && source.pos == source.failAt.value
      ensures r.Success? ==> filled
      ensures old(filled) ==> buf == old(buf) && source.pos == old(source.pos)
      ensures old(filled) ==> r.Success?
      ensures !old(filled) && r.Success? ==> filled && buf == charset.decode(old(source.Remaining()))
      ensures !old(filled) && r.Success? ==> source.pos == |source.data|
      ensures r.Success? ==> ReadsLine(buf, if old(filled) then old(next) else 0, r.value, next)
      ensures r.Success? && r.value.None? ==> old(unread) == [] == unread
      ensures r.Success? && r.value.Some? ==> |unread| < |old(unread)|
      ensures r.Success? && r.value.Some? ==>
        StripLineBreaks(old(unread)) == r.value.value + StripLineBreaks(unread)
    {
      if !filled {
        var f := Fill();
        if f.Fail? {
          return Failure(f.error);
        }
      }
      if next == |buf| {
        return Success(None);
      }
      ghost var from := next;
      NextLineStrip(buf, from);
      var line := ScanLine();
      r := Success(Some(line));
    }

    /** The scan inside `readLine` once the buffer holds text: the characters
        up to the next line break form the line, and the terminator after it
        is skipped. */
    method ScanLine() returns (line: string)
      requires Valid() && filled && next < |buf|
      modifies this`next, this`unread
      ensures Valid()
      ensures NextLine(buf, old(next)) == Some((line, next))
    {
      var j := next;
      while j < |buf| && !IsLineBreak(buf[j])
        invariant next <= j <= |buf|
        invariant LineEnd(buf, j) == LineEnd(buf, next)
      {
        j := j + 1;
      }
      line := buf[next..j];
      if j == |buf| {
        next := j;
      } else if buf[j] == '\r' && j + 1 < |buf| && buf[j + 1] == '\n' {
        next := j + 2;
      } else {
        next := j + 1;
      }
      unread := buf[next..];
    }

    /** `close()` closes the underlying stream and passes on its failure. */
    method Close() returns (r: Outcome<IOException>)
      modifies source`closed
      ensures source.closed
      ensures r.Fail? <==> source.closeFails
    {
      r := source.Close();
    }
  }
}
