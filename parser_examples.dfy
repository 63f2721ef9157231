/** The inputs of the parser tests (test/parser_failure.c,
    test/parser_success.c) and the terminator variants of the wire format,
    run through the model of the parser. */
module ParserExamples {
  import opened Bytes
  import opened Parser

  /** test_empty: no loop iteration; the only callback is
      `UNEXPECTED_END_OF_MESSAGE`, and the call returns 0. */
  lemma EmptyBuffer()
    ensures ParseSpec([], false) == ParseResult(0, [Error(UnexpectedEndOfMessage)])
  {
  }

  /** test_linefeed and test_whitespace: a bare CR LF, with or without
      leading spaces, is `MESSAGE_NOT_FOUND` and returns 0. */
  lemma BlankLines()
    ensures ParseSpec(Ascii("\r\n"), false) == ParseResult(0, [Error(MessageNotFound)])
    ensures ParseSpec(Ascii("          \r\n"), false) == ParseResult(0, [Error(MessageNotFound)])
  {
    FirstTerminatorIs(Ascii("\r\n"), 0);
    FirstTerminatorIs(Ascii("          \r\n"), 10);
  }

  /** test_command expects a successful parse of "PRIVMSG\r\n" that consumes
      all 9 bytes. The code as written reports `MESSAGE_NOT_FOUND` instead;
      even with the flag set it would consume 8, one short. */
  lemma CommandLine()
    ensures ParseSpec(Ascii("PRIVMSG\r\n"), false) == ParseResult(0, [Error(MessageNotFound)])
    ensures ParseSpec(Ascii("PRIVMSG\r\n"), true) == ParseResult(8, [EndMessage])
  {
    FirstTerminatorIs(Ascii("PRIVMSG\r\n"), 7);
  }

  /** "PRIVMSG" followed by a terminator byte: the terminator sits at 7. */
  lemma CommandThen(t: seq<byte>)
    requires |t| > 0 && IsTerminator(t[0])
    ensures FirstTerminator(Ascii("PRIVMSG") + t) == Some(7)
  {
    FirstTerminatorIs(Ascii("PRIVMSG") + t, 7);
  }

  /** With the flag set, every accepted terminator shape ends the message;
      two equal terminator bytes never do. */
  lemma TerminatorShapes()
    ensures ParseSpec(Ascii("PRIVMSG") + [LF], true) == ParseResult(7, [EndMessage])
    ensures ParseSpec(Ascii("PRIVMSG") + [CR], true) == ParseResult(7, [EndMessage])
    ensures ParseSpec(Ascii("PRIVMSG") + [LF, CR], true) == ParseResult(8, [EndMessage])
    ensures ParseSpec(Ascii("PRIVMSG") + [LF, LF], true) == ParseResult(0, [Error(InvalidSentinel)])
    ensures ParseSpec(Ascii("PRIVMSG") + [CR, CR], true) == ParseResult(0, [Error(InvalidSentinel)])
  {
    CommandThen([LF]);
    CommandThen([CR]);
    CommandThen([LF, CR]);
    CommandThen([LF, LF]);
    CommandThen([CR, CR]);
  }

  /** With the flag set, a successful parse can return 0, which the header
      reserves for errors: a lone terminator at the start of the buffer. */
  lemma SuccessCanReturnZero()
    ensures ParseSpec(Ascii("\nX"), true) == ParseResult(0, [EndMessage])
  {
    FirstTerminatorIs(Ascii("\nX"), 0);
  }
}
