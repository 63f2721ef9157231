# ircmsg: line-terminator scanner and serializer length pass

A Dafny model of two byte-level computations of the `ircmsg` IRC message
codec (wire format of RFC 1459 section 2.3.1, tag values escaped as in the
IRCv3 Message Tags specification, section "Escaping values"):

- **`ircmsg_parse`** (src/parser.c). It makes one left-to-right pass over a
  buffer and stops at the first `\r` or `\n`. It looks at the next byte to
  classify the terminator, makes one terminal callback and returns the
  consumed count, or 0 on error. The callback table becomes a returned trace
  of `Event`s (`EndMessage`, `Error(code)`), with the error codes of
  include/ircmsg/parser.h.
- **`ircmsg_serialize_buffer_len` and `get_tag_value_escaped_size`**
  (src/serializer.c). They give the exact wire length of a message pulled
  through an accessor table. The table becomes a `Message` value (tags,
  optional prefix, command, parameters). The length method also returns the
  trace of accessor calls it makes, so the call order is proved too.

Files:

- `bytes.dfy`: module `Bytes`, with the byte type, the ASCII constants and `Option`.
- `parser.dfy`: module `Parser`.
- `serializer.dfy`: module `Serializer`.
- `parser_examples.dfy` and `serializer_examples.dfy`: the inputs of the C
  test suites, as lemmas.

Each C loop is a method. Each method is proved equal to a recursive
specification function (`ParseSpec`, `EscapedSize`, `BufferLen`), and the
properties are proved as lemmas about those functions.

### Behaviour of the parser as written

`found_message_start` is initialised to `false` (src/parser.c:47) and is never
assigned. So the `end_message` branches cannot be reached, and every call of
`ircmsg_parse` ends in exactly one error with return value 0:

- no terminator: `UNEXPECTED_END_OF_MESSAGE`;
- two equal terminator bytes (`\r\r`, `\n\n`): `INVALID_SENTINEL`;
- any other terminator: `MESSAGE_NOT_FOUND`.

`Parser.Parse` states this. The model factors the flag into a parameter
`started`. `Parser.Scan` is the whole function with the flag initialised
from `started`, and `Parser.TerminatorStep` is its terminator branch. This
lets the terminator rules be stated for both values. With `started` set, the
model shows three things:

- The success count is one short of the position after the terminator. The
  `break` skips the loop's `++bytes_consumed`, so `"PRIVMSG\r\n"` gives 8,
  not 9.
- test/parser_success.c:63-70 expects a successful parse that consumes 9
  bytes. The code as written cannot produce that (`ParserExamples.CommandLine`).
- A successful parse can return 0, which include/ircmsg/parser.h:60-66
  reserves for errors (`ParserExamples.SuccessCanReturnZero`).

These are recorded and not corrected, because the model follows the code.
The comment at src/parser.c:59-60 names the terminator bytes 0x13 and 0x10,
but the code compares with `'\r'` and `'\n'` (0x0D, 0x0A); the model follows
the code.

## Model

| member | source | states |
|---|---|---|
| `Parser.IsIrcWhitespace` | src/parser.c:24-36 | exactly the ASCII space is whitespace, and no whitespace byte is a line terminator |
| `Parser.FirstTerminatorFrom` | src/parser.c:51-66 | the scan finds the first `\r` or `\n` at or after a position: a terminator, with none before it, or none at all |
| `Parser.TerminatorStep` | src/parser.c:66-116 | the branch order of the C code agrees with the terminator's shape: a same-kind pair is `INVALID_SENTINEL`; otherwise `end_message` if the flag is set and `MESSAGE_NOT_FOUND` if not; only a mixed pair steps over one extra byte; every case leaves the loop except an error in the final byte; lookahead stays inside the buffer |
| `Parser.Scan` | src/parser.c:38-125 | the loop, with the flag initialised from a parameter, returns exactly the count and callbacks of the specification `ParseSpec` |
| `Parser.Parse` | src/parser.c:44-124 | `ircmsg_parse` always returns 0 with one error: `UNEXPECTED_END_OF_MESSAGE` without a terminator, `INVALID_SENTINEL` when the first terminator is followed by the same byte, `MESSAGE_NOT_FOUND` otherwise |
| `Parser.TerminalCallbacks` | src/parser.c:66-124 | at most one terminal callback per call, and exactly one unless the flag is set and no terminator is found; `end_message` only with the flag; any error returns 0 |
| `Parser.ConsumedWithinBuffer` | src/parser.c:51-124 | the returned count never exceeds the buffer size |
| `Parser.ParseIgnoresBytesAfterTerminator` | src/parser.c:66-116 | once the first terminator and its lookahead byte are in the buffer, appending bytes does not change the outcome |
| `Parser.ParseDependsOnlyOnTerminators` | src/parser.c:51-116 | two buffers of the same length with the same terminator bytes at the same places give the same outcome |
| `Parser.SpacesDoNotMatter` | src/parser.c:50-57 | turning a non-terminator byte into a space leaves the outcome unchanged |
| `ParserExamples.EmptyBuffer` | test/parser_failure.c:77-89 | the empty buffer gives `UNEXPECTED_END_OF_MESSAGE` and 0 |
| `ParserExamples.BlankLines` | test/parser_failure.c:91-117 | `"\r\n"` and `"          \r\n"` give `MESSAGE_NOT_FOUND` and 0 |
| `ParserExamples.CommandLine` | test/parser_success.c:52-71 | `"PRIVMSG\r\n"` gives `MESSAGE_NOT_FOUND` and 0, not the expected success with 9; with the flag set it would give `end_message` and 8 |
| `ParserExamples.TerminatorShapes` | src/parser.c:69-116 | with the flag set, `\n`, `\r` and `\n\r` after `PRIVMSG` end the message; `\n\n` and `\r\r` are `INVALID_SENTINEL` |
| `ParserExamples.SuccessCanReturnZero` | include/ircmsg/parser.h:60-66 | with the flag set, `"\nX"` succeeds and still returns 0 |
| `Serializer.TagValueEscapedSize` | src/serializer.c:129-151 | the loop returns the escaped size of the value |
| `Serializer.EscapedSizeIsLengthPlusSpecials` | src/serializer.c:137-147 | the escaped size is the length plus the number of `;`, space, `\`, CR and LF bytes |
| `Serializer.EscapedSizeBounds` | src/serializer.c:137-147 | the escaped size is between the length and twice the length, and equals the length exactly when no byte needs escaping |
| `Serializer.SerializeBufferLen` | src/serializer.c:36-127 | the loops return `BufferLen` of the message, and the accessor calls are: tag count, each tag in index order, prefix, command, parameter count, each parameter in index order |
| `Serializer.AccessOrderDistinct` | src/serializer.c:46-121 | no accessor call appears twice in a length pass, so each is made exactly once |
| `Serializer.TagSizeByValue` | src/serializer.c:59-70 | a tag with an empty value adds 1 plus its name (no `=`); otherwise it adds 2 plus name plus value plus one per byte needing escape |
| `Serializer.InsertingTag` | src/serializer.c:47-77 | inserting a tag anywhere adds its size, plus the closing space exactly when it is the first tag |
| `Serializer.PrefixContribution` | src/serializer.c:79-94 | a present prefix adds its length plus 2; an absent one adds nothing |
| `Serializer.BareCommandLength` | src/serializer.c:43-44 | a message with only a command takes its length plus 2 for CR LF |
| `Serializer.AppendingParam` | src/serializer.c:106-124 | each parameter adds 1 plus its length; the trailing `:` is counted once, for the last parameter |
| `Serializer.BufferLenSplits` | src/serializer.c:36-127 | the length is additive over any split of the tags and of the parameters |
| `SerializerExamples.SimpleMessageLength` | test/serializer_basic.c:44-65 | `PRIVMSG #test :This is the message` has length 36, the length of the expected string |
| `SerializerExamples.FullMessageLength` | test/serializer_basic.c:79-108 | with tag `foo=bar  ` and prefix `test!test@example.org` the length is 72, the length of the expected string |

## Left out

- `ircmsg_serialize` (src/serializer.c:23-30) has an empty body, so there is no write pass to model. The expected strings of test/serializer_basic.c are used only for their lengths.
- The tokenising of tags, prefix, command and parameters, and the unescaping of tag values, do not exist in src/parser.c. `ircmsg_parse` never calls `start_message`, `start_tags`, `on_tag`, `on_prefix`, `on_command` or the parameter callbacks, so these are not modelled.
- `is_tail_param` (src/parser.c:48) is always false. Its test at line 55 is dropped. `head` is kept as a local that is written on whitespace and never read.
- `user_data` and the function-pointer tables are replaced by the returned `Event` trace and by the `Message` value.
- Serializer.SerializeBufferLen: does not model `size_t` wrap-around of `req_size`, because the sum uses unbounded naturals.
- Pointer arithmetic becomes sequence indexing. The verifier checks every index, so no read past `buf_size` can happen in the model.
- test/parser_test.c, test/parser_test.h, the Python compliance-test generators and the cmocka drivers are test scaffolding. Their assertions are used only as lemmas about the model. test/serializer_test.h is not part of this model.
