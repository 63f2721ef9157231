/** The messages of test/serializer_basic.c: the length pass must give the
    length of the expected wire string. */
module SerializerExamples {
  import opened Bytes
  import opened Serializer

  function Params(): seq<seq<byte>> {
    [Ascii("#test"), Ascii("This is the message")]
  }

  lemma ParamsLength()
    ensures ParamsSize(Params()) == 1 + |"#test"| + 1 + |"This is the message"| + 1
  {
    var ps: seq<seq<byte>> := Params();
    assert ps[..1][..0] == [];
    assert ps[..1] == [ps[0]];
    assert |ps[0]| == 5 && |ps[1]| == 19;
    assert ParamWordsSize(ps[..1]) == 6;
  }

  /** test_simple: a command with two parameters, the last one trailing. */
  lemma SimpleMessageLength()
    ensures BufferLen(Message([], None, Ascii("PRIVMSG"), Params())) ==
      |"PRIVMSG #test :This is the message\r\n"| == 36
  {
    ParamsLength();
  }

  /** test_all: one tag whose value ends in two spaces (each escaped to two
      bytes), a prefix, a command and two parameters. */
  lemma FullMessageLength()
    ensures BufferLen(Message([Tag(Ascii("foo"), Ascii("bar  "))],
                              Some(Ascii("test!test@example.org")),
                              Ascii("PRIVMSG"), Params())) ==
      |"@foo=bar\\s\\s :test!test@example.org PRIVMSG #test :This is the message\r\n"| == 72
  {
    ParamsLength();
    var v := Ascii("bar  ");
    assert v == [0x62, 0x61, 0x72, SPACE, SPACE];
    assert SpecialCount(v) == 2;
    EscapedSizeIsLengthPlusSpecials(v);
  }
}
