/** The length pass of the serializer (src/serializer.c):
    `ircmsg_serialize_buffer_len` and `get_tag_value_escaped_size`.

    The accessor table of the C code becomes a `Message` value; the calls the
    length pass makes on that table are returned as a trace of `Access`
    values, so that their order is part of what is proved. */
module Serializer {
  import opened Bytes

  /** A message tag as `on_tag` hands it out: a name and an unescaped value
      (an empty value stands for "no value"). */
  datatype Tag = Tag(name: seq<byte>, value: seq<byte>)

  /** What the accessor table exposes: the tags, an optional prefix, the
      command, and the parameters (the last one is sent as the trailing
      parameter). */
  datatype Message = Message(
    tags: seq<Tag>,
    prefix: Option<seq<byte>>,
    command: seq<byte>,
    params: seq<seq<byte>>)

  /** One call into the accessor table (include/ircmsg/serializer.h). */
  datatype Access = TagCount | OnTag(index: nat) | OnPrefix | OnCommand | ParamCount | OnParam(index: nat)

  // ---------------------------------------------------------------------
  // Escaped size of a tag value

  /** The five bytes that the IRCv3 tag-value escaping writes as two bytes. */
  predicate NeedsEscape(b: byte) {
    b == SEMICOLON || b == SPACE || b == BACKSLASH || b == CR || b == LF
  }

  /** How many bytes the escaped form of `v` takes, byte by byte from the
      left. */
  function EscapedSize(v: seq<byte>): nat
  {
    if v == [] then 0
    else EscapedSize(v[..|v| - 1]) + (if NeedsEscape(v[|v| - 1]) then 2 else 1)
  }

  /** The number of bytes of `v` that need escaping, counted as
      occurrences of each of the five bytes. */
  function SpecialCount(v: seq<byte>): nat {
    var m := multiset(v);
    m[SEMICOLON] + m[SPACE] + m[BACKSLASH] + m[CR] + m[LF]
  }

  /** The escaped size is the length plus one for every special byte. */
  lemma {:induction false} EscapedSizeIsLengthPlusSpecials(v: seq<byte>)
    ensures EscapedSize(v) == |v| + SpecialCount(v)
  {
    if v != [] {
      var init, last := v[..|v| - 1], v[|v| - 1];
      assert v == init + [last];
      assert multiset(v) == multiset(init) + multiset{last};
      EscapedSizeIsLengthPlusSpecials(init);
    }
  }

  /** Escaping never shrinks a value and at most doubles it; it leaves the
      size unchanged exactly when no byte needs escaping. */
  lemma {:induction false} EscapedSizeBounds(v: seq<byte>)
    ensures |v| <= EscapedSize(v) <= 2 * |v|
    ensures EscapedSize(v) == |v| <==> forall i :: 0 <= i < |v| ==> !NeedsEscape(v[i])
  {
    if v != [] {
      var init := v[..|v| - 1];
      EscapedSizeBounds(init);
      assert forall i :: 0 <= i < |init| ==> init[i] == v[i];
    }
  }

  /** `get_tag_value_escaped_size` (src/serializer.c:129-151). */
  method TagValueEscapedSize(v: seq<byte>) returns (escSize: nat)
    ensures escSize == EscapedSize(v)
  {
    escSize := 0;
    for i := 0 to |v|
      invariant escSize == EscapedSize(v[..i])
    {
      assert v[..i + 1][..i] == v[..i];
      if NeedsEscape(v[i]) {
        escSize := escSize + 2;
      } else {
        escSize := escSize + 1;
      }
    }
    assert v[..|v|] == v;
  }

  // ---------------------------------------------------------------------
  // Length of the whole message

  /** What one tag adds: its leading '@' or ';', its name, and '=' with the
      escaped value only when the value is not empty. */
  function TagSize(t: Tag): nat {
    1 + |t.name| + (if |t.value| != 0 then 1 + EscapedSize(t.value) else 0)
  }

  /** The tags, in order. */
  function TagsSize(tags: seq<Tag>): nat {
    if tags == [] then 0 else TagsSize(tags[..|tags| - 1]) + TagSize(tags[|tags| - 1])
  }

  /** The tag block: the tags and, when there is at least one, the space
      that closes the block. */
  function TagBlockSize(tags: seq<Tag>): nat {
    TagsSize(tags) + (if |tags| != 0 then 1 else 0)
  }

  /** A present prefix is written ':' prefix ' '; an absent one not at all. */
  function PrefixSize(prefix: Option<seq<byte>>): nat {
    match prefix
    case None => 0
    case Some(p) => |p| + 2
  }

  /** Every parameter: its leading space and its bytes. */
  function ParamWordsSize(params: seq<seq<byte>>): nat {
    if params == [] then 0 else ParamWordsSize(params[..|params| - 1]) + 1 + |params[|params| - 1]|
  }

  /** The parameters, with the ':' that marks the last one as trailing. */
  function ParamsSize(params: seq<seq<byte>>): nat {
    ParamWordsSize(params) + (if |params| != 0 then 1 else 0)
  }

  /** The length of the message on the wire: tag block, prefix, command,
      parameters and the closing CR LF. */
  function BufferLen(m: Message): nat {
    TagBlockSize(m.tags) + PrefixSize(m.prefix) + |m.command| + ParamsSize(m.params) + 2
  }

  /** The accessor calls of one length pass: the tag count, each tag once in
      index order, the prefix, the command, the parameter count, and each
      parameter once in index order. */
  function AccessOrder(m: Message): seq<Access> {
    [TagCount] + seq(|m.tags|, i requires 0 <= i => OnTag(i)) + [OnPrefix, OnCommand, ParamCount] +
    seq(|m.params|, i requires 0 <= i => OnParam(i))
  }

  /** `ircmsg_serialize_buffer_len` (src/serializer.c:36-127): the exact
      wire length of `m`, and the accessor calls made to learn it. */
  method SerializeBufferLen(m: Message) returns (reqSize: nat, calls: seq<Access>)
    ensures reqSize == BufferLen(m)
    ensures calls == AccessOrder(m)
  {
    var tagIdx := 0;
    var paramIdx := 0;
    // The closing CR LF.
    reqSize := 2;

    calls := [TagCount];
    var tagCount := |m.tags|;
    while tagIdx < tagCount
      invariant tagIdx <= tagCount
      invariant reqSize == 2 + TagsSize(m.tags[..tagIdx])
      invariant calls == [TagCount] + seq(tagIdx, i requires 0 <= i => OnTag(i))
    {
      assert m.tags[..tagIdx + 1][..tagIdx] == m.tags[..tagIdx];
      var tag := m.tags[tagIdx];
      calls := calls + [OnTag(tagIdx)];
      tagIdx := tagIdx + 1;
      // The '@' before the first tag or the ';' between tags.
      reqSize := reqSize + 1;
      reqSize := reqSize + |tag.name|;
      if |tag.value| != 0 {
        // The '=' between name and value.
        reqSize := reqSize + 1;
        var escSize := TagValueEscapedSize(tag.value);
        reqSize := reqSize + escSize;
      }
    }
    assert m.tags[..tagIdx] == m.tags;
    if tagIdx != 0 {
      // The space after the tag block.
      reqSize := reqSize + 1;
    }

    calls := calls + [OnPrefix];
    if m.prefix.Some? {
      // The ':' before the prefix, and the space after it.
      reqSize := reqSize + 1;
      reqSize := reqSize + |m.prefix.value|;
      reqSize := reqSize + 1;
    }

    calls := calls + [OnCommand];
    reqSize := reqSize + |m.command|;

    calls := calls + [ParamCount];
    var paramCount := |m.params|;
    ghost var before := reqSize;
    ghost var callsBefore := calls;
    while paramIdx < paramCount
      invariant paramIdx <= paramCount
      invariant reqSize == before + ParamWordsSize(m.params[..paramIdx]) +
        (if paramIdx == paramCount && paramIdx != 0 then 1 else 0)
      invariant calls == callsBefore + seq(paramIdx, i requires 0 <= i => OnParam(i))
    {
      assert m.params[..paramIdx + 1][..paramIdx] == m.params[..paramIdx];
      // The space before every parameter.
      reqSize := reqSize + 1;
      if paramIdx == paramCount - 1 {
        // The ':' that marks the trailing parameter.
        reqSize := reqSize + 1;
      }
      var param := m.params[paramIdx];
      calls := calls + [OnParam(paramIdx)];
      paramIdx := paramIdx + 1;
      reqSize := reqSize + |param|;
    }
    assert m.params[..paramIdx] == m.params;
  }

  // ---------------------------------------------------------------------
  // Properties of the length

  lemma {:induction false} TagsSizeAppend(a: seq<Tag>, b: seq<Tag>)
    ensures TagsSize(a + b) == TagsSize(a) + TagsSize(b)
    decreases |b|
  {
    if b != [] {
      var init := b[..|b| - 1];
      assert (a + b)[..|a + b| - 1] == a + init;
      TagsSizeAppend(a, init);
    } else {
      assert a + b == a;
    }
  }

  lemma {:induction false} ParamWordsSizeAppend(a: seq<seq<byte>>, b: seq<seq<byte>>)
    ensures ParamWordsSize(a + b) == ParamWordsSize(a) + ParamWordsSize(b)
    decreases |b|
  {
    if b != [] {
      var init := b[..|b| - 1];
      assert (a + b)[..|a + b| - 1] == a + init;
      ParamWordsSizeAppend(a, init);
    } else {
      assert a + b == a;
    }
  }

  /** A tag with an empty value costs its separator and its name only (no
      '='); a tag with a value costs two more bytes than name and value
      together, plus one for every byte of the value that needs escaping. */
  lemma TagSizeByValue(t: Tag)
    ensures |t.value| == 0 ==> TagSize(t) == 1 + |t.name|
    ensures |t.value| != 0 ==> TagSize(t) == 2 + |t.name| + |t.value| + SpecialCount(t.value)
  {
    EscapedSizeIsLengthPlusSpecials(t.value);
  }

  /** Tags are sized independently of each other: inserting a tag anywhere
      adds its own size, plus the closing space when it is the first tag. */
  lemma InsertingTag(m: Message, k: nat, t: Tag)
    requires k <= |m.tags|
    ensures BufferLen(m.(tags := m.tags[..k] + [t] + m.tags[k..])) ==
      BufferLen(m) + TagSize(t) + (if m.tags == [] then 1 else 0)
  {
    var tags := m.tags;
    assert tags == tags[..k] + tags[k..];
    TagsSizeAppend(tags[..k], tags[k..]);
    TagsSizeAppend(tags[..k] + [t], tags[k..]);
    TagsSizeAppend(tags[..k], [t]);
    assert [t][..0] == [];
  }

  /** A present prefix adds its length and two bytes; nothing else changes. */
  lemma PrefixContribution(m: Message, p: seq<byte>)
    ensures BufferLen(m.(prefix := Some(p))) == BufferLen(m.(prefix := None)) + |p| + 2
  {
  }

  /** A message that is only a command takes the command and CR LF. */
  lemma BareCommandLength(c: seq<byte>)
    ensures BufferLen(Message([], None, c, [])) == |c| + 2
  {
  }

  /** Appending a parameter adds its length and a space; the ':' of the
      trailing parameter is paid once, by the first parameter added. */
  lemma AppendingParam(m: Message, p: seq<byte>)
    ensures BufferLen(m.(params := m.params + [p])) ==
      BufferLen(m) + 1 + |p| + (if m.params == [] then 1 else 0)
  {
    ParamWordsSizeAppend(m.params, [p]);
    assert [p][..0] == [];
  }

  /** The length is the sum of the lengths of the parts, taken in any
      split of the tags and of the parameters. */
  lemma BufferLenSplits(m: Message, i: nat, j: nat)
    requires i <= |m.tags| && j <= |m.params|
    ensures BufferLen(m) + (if 0 < i < |m.tags| then 1 else 0) + (if 0 < j < |m.params| then 1 else 0) ==
      BufferLen(m.(tags := m.tags[..i], params := m.params[..j])) +
      TagBlockSize(m.tags[i..]) + ParamsSize(m.params[j..])
  {
    assert m.tags == m.tags[..i] + m.tags[i..];
    assert m.params == m.params[..j] + m.params[j..];
    TagsSizeAppend(m.tags[..i], m.tags[i..]);
    ParamWordsSizeAppend(m.params[..j], m.params[j..]);
  }

  /** Each accessor of the length pass is called exactly once: no call
      appears twice in the trace. */
  lemma AccessOrderDistinct(m: Message)
    ensures forall a, b :: 0 <= a < b < |AccessOrder(m)| ==> AccessOrder(m)[a] != AccessOrder(m)[b]
  {
    var calls := AccessOrder(m);
    var t, n := |m.tags|, |m.params|;
    assert |calls| == t + n + 4;
    forall a, b | 0 <= a < b < |calls|
      ensures calls[a] != calls[b]
    {
      assert a == 0 ==> calls[a] == TagCount;
      assert 1 <= a <= t ==> calls[a] == OnTag(a - 1);
      assert a == t + 1 ==> calls[a] == OnPrefix;
      assert a == t + 2 ==> calls[a] == OnCommand;
      assert a == t + 3 ==> calls[a] == ParamCount;
      assert t + 4 <= a ==> calls[a] == OnParam(a - t - 4);
      assert 1 <= b <= t ==> calls[b] == OnTag(b - 1);
      assert b == t + 1 ==> calls[b] == OnPrefix;
      assert b == t + 2 ==> calls[b] == OnCommand;
      assert b == t + 3 ==> calls[b] == ParamCount;
      assert t + 4 <= b ==> calls[b] == OnParam(b - t - 4);
    }
  }
}
