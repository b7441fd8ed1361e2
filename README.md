# Dashboard metadata record

A Dafny model of `Metadata`, the record the dashboard metadata component
uses for one dashboard: eleven attributes (identifier, URL, name, version,
description, owner, last updater, creation and last-update times, a shared
flag and a parent identifier) and a content slot holding the dashboard JSON
as a byte array, a string or an open `InputStream`. The content is stored
as given and normalised only when it is read: `getContentStream` turns it
into a stream, and `getContent` reads a stream line by line into text.

Files:

- `base.dfy` (module `Base`): Option and Result, Java `byte` and `long` ranges.
- `utf8.dfy` (module `Utf8`): the UTF-8 encoder of section 3 of RFC 3629 that
  `String.getBytes(UTF_8)` applies, a strict decoder, and the proofs that
  each is the other's inverse.
- `line_breaks.dfy` (module `LineBreaks`): the line rules of
  `BufferedReader.readLine` (`\n`, `\r` and `\r\n` end a line), the
  lines of a text, and the proof that the lines joined without separator are
  the text with every `\r` and `\n` removed.
- `streams.dfy` (module `Streams`): `ByteStream`, a class with its bytes,
  read position, closed flag and two injected faults (the read of one byte
  fails, or close fails); `LineReader`, the `BufferedReader` over an
  `InputStreamReader` that `getContent` builds, whose `ReadLine` is proved
  against the pure line rules.
- `dashboard.dfy` (module `Dashboard`): the content variants, the
  exception, and the class `Metadata` with its fields, getters, setters and
  the three content accessors.
- `scenarios.dfy` (module `Scenarios`): callers of `Metadata` showing the
  repeatable/aliased asymmetry of `getContentStream`, the text read back
  through a stream, and the error path of `getContent`.

Java `null` strings are `Option<string>`; the `Object content` field is the
datatype `Content` with the variants `Unset` (null), `Bytes`, `Text`,
`Stream` and `Other` (any other runtime type). The platform default charset
that `getContent` decodes with is a parameter `cs: Charset` carrying a total
decoding function. Logging is a no-op.

## Model

| member | source | states |
|---|---|---|
| Dashboard.Metadata.constructor | components/org.wso2.carbon.dashboards.metadata/src/main/java/org/wso2/carbon/dashboards/metadata/bean/Metadata.java:35-51 | a new record has null strings, zero times, not shared, no content |
| Dashboard.Metadata.SetUrl | components/org.wso2.carbon.dashboards.metadata/src/main/java/org/wso2/carbon/dashboards/metadata/bean/Metadata.java:58-69 | after SetUrl(v), Url() is v and every other field, content included, is unchanged |
| Dashboard.Metadata.SetName | components/org.wso2.carbon.dashboards.metadata/src/main/java/org/wso2/carbon/dashboards/metadata/bean/Metadata.java:76-87 | after SetName(v), Name() is v and every other field is unchanged |
| Dashboard.Metadata.SetVersion | components/org.wso2.carbon.dashboards.metadata/src/main/java/org/wso2/carbon/dashboards/metadata/bean/Metadata.java:94-105 | after SetVersion(v), Version() is v and every other field is unchanged |
| Dashboard.Metadata.SetDescription | components/org.wso2.carbon.dashboards.metadata/src/main/java/org/wso2/carbon/dashboards/metadata/bean/Metadata.java:112-123 | after SetDescription(v), Description() is v and every other field is unchanged |
| Dashboard.Metadata.SetOwner | components/org.wso2.carbon.dashboards.metadata/src/main/java/org/wso2/carbon/dashboards/metadata/bean/Metadata.java:130-141 | after SetOwner(v), Owner() is v and every other field is unchanged |
| Dashboard.Metadata.SetLastUpdatedBy | components/org.wso2.carbon.dashboards.metadata/src/main/java/org/wso2/carbon/dashboards/metadata/bean/Metadata.java:148-159 | after SetLastUpdatedBy(v), LastUpdatedBy() is v and every other field is unchanged |
| Dashboard.Metadata.SetCreatedTime | components/org.wso2.carbon.dashboards.metadata/src/main/java/org/wso2/carbon/dashboards/metadata/bean/Metadata.java:166-177 | after SetCreatedTime(v), CreatedTime() is v (any 64-bit value, negative included) and every other field is unchanged |
| Dashboard.Metadata.SetLastUpdatedTime | components/org.wso2.carbon.dashboards.metadata/src/main/java/org/wso2/carbon/dashboards/metadata/bean/Metadata.java:184-195 | after SetLastUpdatedTime(v), LastUpdatedTime() is v and every other field is unchanged |
| Dashboard.Metadata.SetShared | components/org.wso2.carbon.dashboards.metadata/src/main/java/org/wso2/carbon/dashboards/metadata/bean/Metadata.java:202-213 | after SetShared(b), IsShared() is b and every other field is unchanged |
| Dashboard.Metadata.SetParentId | components/org.wso2.carbon.dashboards.metadata/src/main/java/org/wso2/carbon/dashboards/metadata/bean/Metadata.java:220-231 | after SetParentId(v), ParentId() is v, with no check against the hierarchy, and every other field is unchanged |
| Dashboard.Metadata.SetId | components/org.wso2.carbon.dashboards.metadata/src/main/java/org/wso2/carbon/dashboards/metadata/bean/Metadata.java:238-249 | after SetId(v), Id() is v and every other field is unchanged |
| Dashboard.Metadata.SetContent | components/org.wso2.carbon.dashboards.metadata/src/main/java/org/wso2/carbon/dashboards/metadata/bean/Metadata.java:284-286 | the content becomes exactly the given value, with no conversion, and no other field changes |
| Dashboard.Metadata.GetContentStream | components/org.wso2.carbon.dashboards.metadata/src/main/java/org/wso2/carbon/dashboards/metadata/bean/Metadata.java:294-309 | fails with "Resource content is empty." exactly when the content is null or of another type; bytes give a fresh stream at position 0 over those bytes; text gives a fresh stream over its UTF-8 encoding, which decodes back to the text; a stored stream is returned itself, untouched; the record never changes |
| Dashboard.ReadLines | components/org.wso2.carbon.dashboards.metadata/src/main/java/org/wso2/carbon/dashboards/metadata/bean/Metadata.java:261-264 | the `while ((line = br.readLine()) != null) sb.append(line)` loop: fails exactly when a read fault lies ahead; otherwise returns the decoded remaining bytes with every CR and LF removed and leaves the stream at its end |
| Dashboard.Metadata.GetContent | components/org.wso2.carbon.dashboards.metadata/src/main/java/org/wso2/carbon/dashboards/metadata/bean/Metadata.java:256-277 | on stream content, fails with "Error in retrieving dashboard content" and an IOException cause exactly when a read fault lies ahead; otherwise returns the concatenation of the lines readLine yields, which equals the decoded remaining bytes with every CR and LF removed, and leaves the stream at its end; in both cases the stream is closed, and a close failure does not change the outcome |
| Streams.ByteStream.OverBytes | components/org.wso2.carbon.dashboards.metadata/src/main/java/org/wso2/carbon/dashboards/metadata/bean/Metadata.java:300 | a ByteArrayInputStream: open, at position 0, over exactly the given bytes, never failing |
| Streams.ByteStream.Read | components/org.wso2.carbon.dashboards.metadata/src/main/java/org/wso2/carbon/dashboards/metadata/bean/Metadata.java:262 | one read: the injected fault, the end of the stream with the position kept, or the next byte with the position advanced by one |
| Streams.ByteStream.Close | components/org.wso2.carbon.dashboards.metadata/src/main/java/org/wso2/carbon/dashboards/metadata/bean/Metadata.java:270 | the stream is closed whether or not close raises, and it raises exactly when its close fault is set |
| Streams.LineReader.constructor | components/org.wso2.carbon.dashboards.metadata/src/main/java/org/wso2/carbon/dashboards/metadata/bean/Metadata.java:261 | wrapping the stream in a reader reads nothing from it |
| Streams.LineReader.Fill | components/org.wso2.carbon.dashboards.metadata/src/main/java/org/wso2/carbon/dashboards/metadata/bean/Metadata.java:262 | the reader's first fill reads the stream to its end and decodes the bytes read; it fails exactly when a fault lies ahead, stopping at the failing byte |
| Streams.LineReader.ReadLine | components/org.wso2.carbon.dashboards.metadata/src/main/java/org/wso2/carbon/dashboards/metadata/bean/Metadata.java:262 | each readLine returns what NextLine prescribes for the buffered text, or the IOException of the first fill; a returned line plus the rest with line breaks dropped is the previously unread text with line breaks dropped, and the unread text shrinks |
| Streams.LineReader.ScanLine | components/org.wso2.carbon.dashboards.metadata/src/main/java/org/wso2/carbon/dashboards/metadata/bean/Metadata.java:262 | the scan over a filled buffer yields exactly the line and the position NextLine prescribes |
| Streams.LineReader.Close | components/org.wso2.carbon.dashboards.metadata/src/main/java/org/wso2/carbon/dashboards/metadata/bean/Metadata.java:268-274 | closing the reader closes the stream and passes on the stream's close failure |
| Utf8.EncodeChar | components/org.wso2.carbon.dashboards.metadata/src/main/java/org/wso2/carbon/dashboards/metadata/bean/Metadata.java:302 | one character becomes one to four bytes; ASCII is one byte equal to the code point; lead bytes of longer forms are 0xC2 to 0xF4 and the rest are continuation bytes |
| Utf8.Encode | components/org.wso2.carbon.dashboards.metadata/src/main/java/org/wso2/carbon/dashboards/metadata/bean/Metadata.java:302 | `getBytes(UTF-8)` on text: the encoding is empty exactly when the text is; DecodeEncode and EncodeDecode prove it is inverted by the strict decoder in both directions |
| Utf8.EncodeLength | components/org.wso2.carbon.dashboards.metadata/src/main/java/org/wso2/carbon/dashboards/metadata/bean/Metadata.java:302 | the encoding of a string has between one and four bytes per character |
| Utf8.EncodeAscii | components/org.wso2.carbon.dashboards.metadata/src/main/java/org/wso2/carbon/dashboards/metadata/bean/Metadata.java:302 | ASCII-only text encodes to its code points, one byte per character |
| Utf8.DecodeChar | components/org.wso2.carbon.dashboards.metadata/src/main/java/org/wso2/carbon/dashboards/metadata/bean/Metadata.java:302 | the decoder consumes one to four bytes, and exactly one byte precisely when the first byte is ASCII |
| Utf8.DecodeEncodeChar | components/org.wso2.carbon.dashboards.metadata/src/main/java/org/wso2/carbon/dashboards/metadata/bean/Metadata.java:302 | decoding the encoding of a character, whatever follows, gives back that character and its length |
| Utf8.DecodeEncode | components/org.wso2.carbon.dashboards.metadata/src/main/java/org/wso2/carbon/dashboards/metadata/bean/Metadata.java:302 | decoding the UTF-8 encoding of any string gives the string back |
| Utf8.EncodeDecodeChar | components/org.wso2.carbon.dashboards.metadata/src/main/java/org/wso2/carbon/dashboards/metadata/bean/Metadata.java:302 | the decoder accepts only the canonical encoding of the character it returns |
| Utf8.EncodeDecode | components/org.wso2.carbon.dashboards.metadata/src/main/java/org/wso2/carbon/dashboards/metadata/bean/Metadata.java:302 | whatever strict decoding returns re-encodes to exactly the input bytes |
| LineBreaks.StripLineBreaks | components/org.wso2.carbon.dashboards.metadata/src/main/java/org/wso2/carbon/dashboards/metadata/bean/Metadata.java:262-264 | dropping line breaks never lengthens a text |
| LineBreaks.StripLeavesNoBreak | components/org.wso2.carbon.dashboards.metadata/src/main/java/org/wso2/carbon/dashboards/metadata/bean/Metadata.java:262-264 | no CR or LF survives in the collapsed text |
| LineBreaks.StripKeepsBreakFree | components/org.wso2.carbon.dashboards.metadata/src/main/java/org/wso2/carbon/dashboards/metadata/bean/Metadata.java:262-264 | a text without CR or LF is kept as it is |
| LineBreaks.LineEnd | components/org.wso2.carbon.dashboards.metadata/src/main/java/org/wso2/carbon/dashboards/metadata/bean/Metadata.java:262 | a line ends at a CR or LF at or after its start, or at the end of the text |
| LineBreaks.LineEndIsFirstBreak | components/org.wso2.carbon.dashboards.metadata/src/main/java/org/wso2/carbon/dashboards/metadata/bean/Metadata.java:262 | no CR or LF lies between the start of a line and its end, so the end is the first break |
| LineBreaks.LinesFrom | components/org.wso2.carbon.dashboards.metadata/src/main/java/org/wso2/carbon/dashboards/metadata/bean/Metadata.java:262 | the sequence of non-null readLine results from a position: empty exactly when nothing is left to read, and never more lines than characters left; LinesBreakFree and ConcatLinesFrom state what the lines hold |
| LineBreaks.Lines | components/org.wso2.carbon.dashboards.metadata/src/main/java/org/wso2/carbon/dashboards/metadata/bean/Metadata.java:262 | the readLine results over a whole text: none exactly for the empty text, never more lines than characters |
| LineBreaks.Concat | components/org.wso2.carbon.dashboards.metadata/src/main/java/org/wso2/carbon/dashboards/metadata/bean/Metadata.java:263 | the `sb.append(line)` fold: the joined text is at least as long as each line; ConcatLines proves that joining the lines of a text gives the text with every CR and LF removed |
| LineBreaks.TerminatorIsBreaks | components/org.wso2.carbon.dashboards.metadata/src/main/java/org/wso2/carbon/dashboards/metadata/bean/Metadata.java:262 | what readLine skips after a line is at most two characters, all of them CR or LF, and at least one whenever a break follows the line |
| LineBreaks.NextLineStart | components/org.wso2.carbon.dashboards.metadata/src/main/java/org/wso2/carbon/dashboards/metadata/bean/Metadata.java:262 | the next line starts at the end of the text when the line reaches it, two characters past the line exactly when a CR is followed by an LF (one terminator), and one character past it otherwise |
| LineBreaks.StripTerminator | components/org.wso2.carbon.dashboards.metadata/src/main/java/org/wso2/carbon/dashboards/metadata/bean/Metadata.java:262-264 | a terminator of at most two line breaks vanishes when line breaks are dropped |
| LineBreaks.NextLine | components/org.wso2.carbon.dashboards.metadata/src/main/java/org/wso2/carbon/dashboards/metadata/bean/Metadata.java:262 | readLine returns null exactly at the end of the text; otherwise it returns the unread text up to the first CR, LF or the end, and always advances; where it resumes is stated by NextLineStart |
| LineBreaks.StripAppend | components/org.wso2.carbon.dashboards.metadata/src/main/java/org/wso2/carbon/dashboards/metadata/bean/Metadata.java:262-264 | dropping line breaks distributes over concatenation |
| LineBreaks.NextLineStrip | components/org.wso2.carbon.dashboards.metadata/src/main/java/org/wso2/carbon/dashboards/metadata/bean/Metadata.java:262-264 | one line plus the rest with its breaks dropped is the unread text with its breaks dropped |
| LineBreaks.ConcatLinesFrom | components/org.wso2.carbon.dashboards.metadata/src/main/java/org/wso2/carbon/dashboards/metadata/bean/Metadata.java:262-264 | the lines readLine yields from any point, joined with no separator, are the rest of the text with every CR and LF removed |
| LineBreaks.ConcatLines | components/org.wso2.carbon.dashboards.metadata/src/main/java/org/wso2/carbon/dashboards/metadata/bean/Metadata.java:262-264 | the lines of a whole text, joined with no separator, are the text with every CR and LF removed |
| LineBreaks.LinesBreakFree | components/org.wso2.carbon.dashboards.metadata/src/main/java/org/wso2/carbon/dashboards/metadata/bean/Metadata.java:262 | no line readLine yields contains a CR or LF |
| LineBreaks.ThreeLines | components/org.wso2.carbon.dashboards.metadata/src/main/java/org/wso2/carbon/dashboards/metadata/bean/Metadata.java:262-264 | the text "a\nb\nc" is read as the lines a, b, c and collapses to "abc" |
| LineBreaks.CrLfIsOneTerminator | components/org.wso2.carbon.dashboards.metadata/src/main/java/org/wso2/carbon/dashboards/metadata/bean/Metadata.java:262 | the text "a\r\nb" is read as the two lines a and b |
| LineBreaks.TwoBreaksAreTwoTerminators | components/org.wso2.carbon.dashboards.metadata/src/main/java/org/wso2/carbon/dashboards/metadata/bean/Metadata.java:262 | the texts "a\r\rb" and "a\n\nb" are each read as the lines a, the empty line and b |
| Scenarios.BytesAreRepeatable | components/org.wso2.carbon.dashboards.metadata/src/main/java/org/wso2/carbon/dashboards/metadata/bean/Metadata.java:299-300 | two getContentStream calls on byte content give two distinct streams over the same bytes, both at position 0 |
| Scenarios.TextIsRepeatable | components/org.wso2.carbon.dashboards.metadata/src/main/java/org/wso2/carbon/dashboards/metadata/bean/Metadata.java:301-303 | two getContentStream calls on text content give two distinct streams whose bytes both decode as UTF-8 to the text |
| Scenarios.StreamIsShared | components/org.wso2.carbon.dashboards.metadata/src/main/java/org/wso2/carbon/dashboards/metadata/bean/Metadata.java:304-305 | on stream content both calls return the stored stream, so a byte read through the first is gone from the second |
| Scenarios.TextReadBack | components/org.wso2.carbon.dashboards.metadata/src/main/java/org/wso2/carbon/dashboards/metadata/bean/Metadata.java:256-303 | text turned into a stream and read back by getContent comes out without its line breaks when the charset decodes UTF-8, and the stream ends closed |
| Scenarios.FaultIsReported | components/org.wso2.carbon.dashboards.metadata/src/main/java/org/wso2/carbon/dashboards/metadata/bean/Metadata.java:265-274 | a stream that fails during the read yields the retrieval error and is closed even though its close also fails |

## Left out

- Logging of a close failure (`log.error`) is a no-op; the failure is otherwise discarded, as in the source.
- `Charset.defaultCharset()` depends on the platform, so `getContent` takes the decoding function as a parameter; how a real decoder treats malformed bytes is not modelled.
- Dashboard.Metadata.GetContent: requires content that is an open stream. A null or non-stream content makes the source's cast fail with a JVM runtime exception rather than the domain exception, and what reading an already closed stream does depends on the concrete stream class, so neither is stated.
- Streams.LineReader.Fill: the reader reads the whole stream at its first fill instead of in 8192-character chunks; since `getContent` reads to the end either way, only the partial text discarded on a failure and the exact position at which a fault is met differ.
- Java strings are UTF-16; Dafny characters are Unicode scalar values, so a string holding an unpaired surrogate (which `getBytes(UTF_8)` replaces by `?`) is not modelled.
- `new ByteArrayInputStream(bytes)` shares the caller's array; the model copies the bytes as a value, so a later change to the array through another reference is not modelled.
- Concurrent use of a shared stream is not modelled: the model is sequential.
- The `MetadataException` class is not part of this model; it is a datatype carrying a message and an optional IOException cause.
