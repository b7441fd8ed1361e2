/** Callers of the dashboard record, showing what its contracts let them
    conclude about the content slot: byte and text content give a new,
    independent stream on every call, stored stream content is handed out
    itself, so reading it is seen by every later caller, and text read back
    through a stream loses its line breaks. */
module Scenarios {
  import opened Base
  import Utf8
  import opened LineBreaks
  import opened Streams
  import opened Dashboard

  /** Byte content: two calls give two distinct streams over the same bytes. */
  method BytesAreRepeatable(m: Metadata, bytes: seq<Byte>) returns (first: ByteStream, second: ByteStream)
    modifies m`content
    ensures m.content == Bytes(bytes)
    ensures first != second && fresh(first) && fresh(second)
    ensures first.data == second.data == bytes && first.pos == second.pos == 0
  {
    m.SetContent(Bytes(bytes));
    var r1 := m.GetContentStream();
    var r2 := m.GetContentStream();
    first, second := r1.value, r2.value;
  }

  /** Text content: each call gives a new stream whose bytes decode, as
      UTF-8, back to the text. */
  method TextIsRepeatable(m: Metadata, text: string) returns (first: ByteStream, second: ByteStream)
    modifies m`content
    ensures m.content == Text(text)
    ensures first != second && fresh(first) && fresh(second)
    ensures Utf8.Decode(first.data) == Utf8.Decode(second.data) == Some(text)
  {
    m.SetContent(Text(text));
    var r1 := m.GetContentStream();
    var r2 := m.GetContentStream();
    first, second := r1.value, r2.value;
  }

  /** Stream content: both calls return the stored stream, so a byte read
      through the first is missing from what the second yields. */
  method StreamIsShared(m: Metadata, s: ByteStream) returns (first: ByteStream, second: ByteStream)
    requires s.Valid() && !s.closed && s.failAt == None && s.pos < |s.data|
    modifies m`content, s`pos
    ensures first == second == s
    ensures s.pos == old(s.pos) + 1 && second.Remaining() == old(s.Remaining())[1..]
  {
    m.SetContent(Stream(s));
    var r1 := m.GetContentStream();
    first := r1.value;
    var b := first.Read();
    var r2 := m.GetContentStream();
    second := r2.value;
  }

  /** Text stored, turned into a stream, stored again and read back: when the
      platform charset decodes the text's UTF-8 bytes to the text, the
      result is the text with its line breaks removed, and the stream is
      left closed. */
  method TextReadBack(m: Metadata, text: string, cs: Charset) returns (r: Result<string, MetadataException>, s: ByteStream)
    requires cs.decode(Utf8.Encode(text)) == text
    modifies m`content
    ensures m.content == Stream(s) && s.closed
    ensures r == Success(StripLineBreaks(text))
  {
    m.SetContent(Text(text));
    var stream := m.GetContentStream();
    s := stream.value;
    m.SetContent(Stream(s));
    r := m.GetContent(cs);
  }

  /** A stream that fails while being read: the retrieval error, and the stream is closed anyway. */
  method FaultIsReported(m: Metadata, bytes: seq<Byte>, at: nat, cs: Charset) returns (r: Result<string, MetadataException>, s: ByteStream)
    requires at <= |bytes|
    modifies m`content
    ensures m.content == Stream(s) && s.closed
    ensures r == Failure(MetadataException(RetrievalMessage, Some(IOException)))
  {
    s := new ByteStream.WithFaults(bytes, Some(at), true);
    m.SetContent(Stream(s));
    r := m.GetContent(cs);
  }
}
