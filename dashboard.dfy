/** The dashboard record `Metadata`: eleven attributes with plain accessors
    and a content slot that holds the dashboard JSON as bytes, as text or as
    an open stream, normalised only when it is read. */
module Dashboard {
  import opened Base
  import Utf8
  import opened LineBreaks
  import opened Streams

  /** What the `Object content` field may hold. Unset is Java's null; Other
      is any value of a type the accessors do not handle. */
  datatype Content =
    | Unset
    | Bytes(bytes: seq<Byte>)
    | Text(text: string)
    | Stream(stream: ByteStream)
    | Other

  /** The domain exception: a message and, for read failures, the IOException behind it. */
  datatype MetadataException = MetadataException(message: string, cause: Option<IOException>)

  const EmptyContentMessage := "Resource content is empty."
  const RetrievalMessage := "Error in retrieving dashboard content"

  /** Every field of a record at one moment. */
  datatype Fields = Fields(
    id: Option<string>,
    url: Option<string>,
    name: Option<string>,
    version: Option<string>,
    description: Option<string>,
    owner: Option<string>,
    lastUpdatedBy: Option<string>,
    createdTime: Long,
    lastUpdatedTime: Long,
    isShared: bool,
    parentId: Option<string>,
    content: Content)

  /** The try block of `getContent`: appends every line the reader yields to
      a StringBuilder, with no separator, until readLine returns null or
      raises. */
  method ReadLines(br: LineReader) returns (r: Result<string, IOException>)
    requires br.Valid() && !br.filled && !br.source.closed
    modifies br, br.source`pos
    ensures br.Valid()
    ensures r.Failure? <==> old(br.source.FaultAhead())
    ensures r.Success? ==> br.source.pos == |br.source.data|
    ensures r.Success? ==> r.value == StripLineBreaks(br.charset.decode(old(br.source.Remaining())))
  {
    ghost var text := br.unread;
    ghost var faulty := br.source.FaultAhead();
    var sb := "";
    // `while ((line = br.readLine()) != null)`: the call in the condition is
    // made once before the loop and again at the end of each iteration.
    var line := br.ReadLine();
    while line.Success? && line.value.Some?
      invariant br.Valid()
      invariant line.Failure? ==> faulty
      invariant line.Success? ==> br.filled && !faulty && br.source.pos == |br.source.data|
      invariant line.Success? && line.value.Some? ==>
        sb + line.value.value + StripLineBreaks(br.unread) == StripLineBreaks(text)
      invariant line.Success? && line.value.None? ==> sb == StripLineBreaks(text)
      decreases |br.unread|, if line.Success? && line.value.Some? then 1 else 0
    {
      sb := sb + line.value.value;
      line := br.ReadLine();
      if line.value.Some? {
        assert sb + line.value.value + StripLineBreaks(br.unread)
            == sb + (line.value.value + StripLineBreaks(br.unread));
      }
    }
    if line.Failure? {
      return Failure(line.error);
    }
    r := Success(sb);
  }

  class Metadata {
    var id: Option<string>
    var url: Option<string>
    var name: Option<string>
    var version: Option<string>
    var description: Option<string>
    var owner: Option<string>
    var lastUpdatedBy: Option<string>
    var createdTime: Long
    var lastUpdatedTime: Long
    var isShared: bool
    var parentId: Option<string>
    var content: Content

    /** The implicit Java constructor: references null, numbers zero, flags false. */
    constructor ()
      ensures Snapshot() == Fields(None, None, None, None, None, None, None, 0, 0, false, None, Unset)
    {
      id, url, name, version, description, owner, lastUpdatedBy := None, None, None, None, None, None, None;
      createdTime, lastUpdatedTime, isShared, parentId, content := 0, 0, false, None, Unset;
    }

    function Snapshot(): Fields
      reads this
    {
      Fields(id, url, name, version, description, owner, lastUpdatedBy,
             createdTime, lastUpdatedTime, isShared, parentId, content)
    }

    function Url(): Option<string> reads this { url }

    method SetUrl(url: Option<string>)
      modifies this`url
      ensures Url() == url
      ensures Snapshot() == old(Snapshot()).(url := url)
    {
      this.url := url;
    }

    function Name(): Option<string> reads this { name }

    method SetName(name: Option<string>)
      modifies this`name
      ensures Name() == name
      ensures Snapshot() == old(Snapshot()).(name := name)
    {
      this.name := name;
    }

    function Version(): Option<string> reads this { version }

    method SetVersion(version: Option<string>)
      modifies this`version
      ensures Version() == version
      ensures Snapshot() == old(Snapshot()).(version := version)
    {
      this.version := version;
    }

    function Description(): Option<string> reads this { description }

    method SetDescription(description: Option<string>)
      modifies this`description
      ensures Description() == description
      ensures Snapshot() == old(Snapshot()).(description := description)
    {
      this.description := description;
    }

    function Owner(): Option<string> reads this { owner }

    method SetOwner(owner: Option<string>)
      modifies this`owner
      ensures Owner() == owner
      ensures Snapshot() == old(Snapshot()).(owner := owner)
    {
      this.owner := owner;
    }

    function LastUpdatedBy(): Option<string> reads this { lastUpdatedBy }

    method SetLastUpdatedBy(lastUpdatedBy: Option<string>)
      modifies this`lastUpdatedBy
      ensures LastUpdatedBy() == lastUpdatedBy
      ensures Snapshot() == old(Snapshot()).(lastUpdatedBy := lastUpdatedBy)
    {
      this.lastUpdatedBy := lastUpdatedBy;
    }

    function CreatedTime(): Long reads this { createdTime }

    method SetCreatedTime(createdTime: Long)
      modifies this`createdTime
      ensures CreatedTime() == createdTime
      ensures Snapshot() == old(Snapshot()).(createdTime := createdTime)
    {
      this.createdTime := createdTime;
    }

    function LastUpdatedTime(): Long reads this { lastUpdatedTime }

    method SetLastUpdatedTime(lastUpdatedTime: Long)
      modifies this`lastUpdatedTime
      ensures LastUpdatedTime() == lastUpdatedTime
      ensures Snapshot() == old(Snapshot()).(lastUpdatedTime := lastUpdatedTime)
    {
      this.lastUpdatedTime := lastUpdatedTime;
    }

    function IsShared(): bool reads this { isShared }

    method SetShared(shared: bool)
      modifies this`isShared
      ensures IsShared() == shared
      ensures Snapshot() == old(Snapshot()).(isShared := shared)
    {
      isShared := shared;
    }

    function ParentId(): Option<string> reads this { parentId }

    method SetParentId(parentId: Option<string>)
      modifies this`parentId
      ensures ParentId() == parentId
      ensures Snapshot() == old(Snapshot()).(parentId := parentId)
    {
      this.parentId := parentId;
    }

    function Id(): Option<string> reads this { id }

    method SetId(id: Option<string>)
      modifies this`id
      ensures Id() == id
      ensures Snapshot() == old(Snapshot()).(id := id)
    {
      this.id := id;
    }

    /** `getContent()`: reads the content stream line by line through a
        reader in charset cs and returns the lines joined with no separator,
        which is the decoded text with every carriage return and line feed
        removed. The stream is read to its end and closed; a read failure
        becomes the retrieval error, the stream is still closed, and a
        failure to close is only logged. */
    method GetContent(cs: Charset) returns (r: Result<string, MetadataException>)
      requires content.Stream? && content.stream.Valid() && !content.stream.closed
      modifies content.stream`pos, content.stream`closed
      ensures content.stream.Valid() && content.stream.closed
      ensures r.Failure? <==> old(content.stream.FaultAhead())
      ensures r.Failure? ==> r.error == MetadataException(RetrievalMessage, Some(IOException))
      ensures r.Success? ==> content.stream.pos == |content.stream.data|
      ensures r.Success? ==> r.value == Concat(Lines(cs.decode(old(content.stream.Remaining()))))
      ensures r.Success? ==> r.value == StripLineBreaks(cs.decode(old(content.stream.Remaining())))
    {
      var s: ByteStream := content.stream;
      ghost var text := cs.decode(s.Remaining());
      var br := new LineReader(s, cs);
      var read := ReadLines(br);
      // The finally block: the reader, and with it the stream, is closed on
      // both paths; a failure to close is only logged.
      var closing := br.Close();
      if read.Failure? {
        // IOException carries no data, so the cause passed on is that one value.
        assert read.error == IOException;
        return Failure(MetadataException(RetrievalMessage, Some(read.error)));
      }
      ConcatLines(text);
      r := Success(read.value);
    }

    /** `setContent(content)`: stores the value as given, replacing the previous one. */
    method SetContent(content: Content)
      modifies this`content
      ensures this.content == content
      ensures Snapshot() == old(Snapshot()).(content := content)
    {
      this.content := content;
    }

    /** `getContentStream()`: a fresh stream over the bytes, a fresh stream
        over the UTF-8 encoding of the text, or the stored stream itself;
        unset content and content of any other type raise the empty-content
        error. Nothing is read and the record is not changed. */
    method GetContentStream() returns (r: Result<ByteStream, MetadataException>)
      ensures r.Failure? <==> content.Unset? || content.Other?
      ensures r.Failure? ==> r.error == MetadataException(EmptyContentMessage, None)
      ensures content.Bytes? ==> r.Success? && fresh(r.value) && r.value.Valid()
      ensures content.Bytes? ==> r.value.data == content.bytes && r.value.pos == 0 && !r.value.closed
      ensures content.Bytes? ==> r.value.failAt == None && !r.value.closeFails
      ensures content.Text? ==> r.Success? && fresh(r.value) && r.value.Valid()
      ensures content.Text? ==> r.value.data == Utf8.Encode(content.text) && r.value.pos == 0 && !r.value.closed
      ensures content.Text? ==> r.value.failAt == None && !r.value.closeFails
      ensures content.Text? ==> Utf8.Decode(r.value.data) == Some(content.text)
      ensures content.Stream? ==> r == Success(content.stream) && unchanged(content.stream)
    {
      if content.Bytes? {
        var s := new ByteStream.OverBytes(content.bytes);
        r := Success(s);
      } else if content.Text? {
        var encoded := Utf8.Encode(content.text);
        Utf8.DecodeEncode(content.text);
        var s := new ByteStream.OverBytes(encoded);
        r := Success(s);
      } else if content.Stream? {
        r := Success(content.stream);
      } else {
        r := Failure(MetadataException(EmptyContentMessage, None));
      }
    }
  }
}
