/** The line-terminator scanner of `ircmsg_parse` (src/parser.c).

    The callback table of the C code becomes the trace of terminal
    callbacks a call makes: `EndMessage` for `end_message`, `Error(code)` for
    `on_error(code)`. The code never invokes any other callback. */
module Parser {
  import opened Bytes

  /** `ircmsg_parser_err_code` (include/ircmsg/parser.h). */
  datatype ParserError = MessageNotFound | UnexpectedEndOfMessage | InvalidSentinel

  /** A terminal callback made by one call of the parser. */
  datatype Event = EndMessage | Error(code: ParserError)

  /** What a call returns (`bytes_consumed` or 0) and the callbacks it made. */
  datatype ParseResult = ParseResult(consumed: nat, events: seq<Event>)

  /** The four shapes a line terminator can take, judged from the
      terminator byte and the byte after it. */
  datatype TerminatorKind =
    | MixedPair   // "\r\n" or "\n\r"
    | SamePair    // "\r\r" or "\n\n"
    | Lone        // a terminator followed by some other byte
    | Final       // a terminator in the last byte of the buffer

  /** What the terminator branch of the loop body does: the callback it
      makes, how many extra bytes it steps over, and whether it leaves the
      loop with `break`. */
  datatype Step = Step(event: Event, extra: nat, breaks: bool)

  predicate IsTerminator(b: byte) {
    b == CR || b == LF
  }

  /** `is_irc_whitespace`: only the ASCII space is whitespace, and no
      whitespace byte is a line terminator. */
  function IsIrcWhitespace(b: byte): (r: bool)
    ensures r <==> b == SPACE
    ensures r ==> !IsTerminator(b)
  {
    match b
    case 0x20 => true
    case _ => false
  }

  /** The index of the first terminator at or after `from`, if any. */
  function FirstTerminatorFrom(buf: seq<byte>, from: nat): (r: Option<nat>)
    requires from <= |buf|
    ensures r.Some? ==>
      from <= r.value < |buf| && IsTerminator(buf[r.value]) &&
      forall j :: from <= j < r.value ==> !IsTerminator(buf[j])
    ensures r.None? ==> forall j :: from <= j < |buf| ==> !IsTerminator(buf[j])
    decreases |buf| - from
  {
    if from == |buf| then None
    else if IsTerminator(buf[from]) then Some(from)
    else FirstTerminatorFrom(buf, from + 1)
  }

  function FirstTerminator(buf: seq<byte>): Option<nat> {
    FirstTerminatorFrom(buf, 0)
  }

  /** The shape of the terminator at `i`, stated without reference to the
      order in which the C code tests the cases. */
  function Classify(buf: seq<byte>, i: nat): TerminatorKind
    requires i < |buf| && IsTerminator(buf[i])
  {
    if i == |buf| - 1 then Final
    else if !IsTerminator(buf[i + 1]) then Lone
    else if buf[i + 1] == buf[i] then SamePair
    else MixedPair
  }

  /** The index just past the terminator at `i`: where the next message
      would begin. */
  function TerminatorEnd(buf: seq<byte>, i: nat): (r: nat)
    requires i < |buf| && IsTerminator(buf[i])
    ensures i < r <= |buf|
  {
    if Classify(buf, i) == MixedPair then i + 2 else i + 1
  }

  /** The callback a terminator of shape `kind` triggers when the flag
      `found_message_start` is `started`. */
  function TerminatorEvent(kind: TerminatorKind, started: bool): Event {
    if kind == SamePair then Error(InvalidSentinel)
    else if started then EndMessage
    else Error(MessageNotFound)
  }

  /** The terminator branch of the loop body (src/parser.c:66-116), in the
      order the C code tests its cases, with `found_message_start` as the
      parameter `started`. It agrees with the classification above; the
      only case that does not leave the loop is an error in the last byte. */
  function TerminatorStep(buf: seq<byte>, i: nat, started: bool): (r: Step)
    requires i < |buf| && IsTerminator(buf[i])
    ensures r.event == TerminatorEvent(Classify(buf, i), started)
    ensures r.extra == (if Classify(buf, i) == MixedPair then 1 else 0)
    ensures i + r.extra < |buf|
    ensures r.breaks <==> started || Classify(buf, i) != Final
  {
    var wasCr := buf[i] == CR;
    var wasLf := buf[i] == LF;
    var outcome := if started then EndMessage else Error(MessageNotFound);
    if i != |buf| - 1 then
      if wasLf && buf[i + 1] == CR then Step(outcome, 1, true)
      else if wasCr && buf[i + 1] == LF then Step(outcome, 1, true)
      else if wasLf && buf[i + 1] == LF then Step(Error(InvalidSentinel), 0, true)
      else if wasCr && buf[i + 1] == CR then Step(Error(InvalidSentinel), 0, true)
      else Step(outcome, 0, true)
    else if started then Step(EndMessage, 0, true)
    else Step(Error(MessageNotFound), 0, false)
  }

  /** The outcome of one parse call. `started` is the initial value of
      `found_message_start`; the C code always starts with `false`, which
      `Parse` below fixes. On the success path the count is the index of the
      last byte of the terminator, one short of `TerminatorEnd`. */
  function ParseSpec(buf: seq<byte>, started: bool): ParseResult {
    match FirstTerminator(buf)
    case None =>
      if started then ParseResult(|buf|, [])
      else ParseResult(0, [Error(UnexpectedEndOfMessage)])
    case Some(k) =>
      var ev := TerminatorEvent(Classify(buf, k), started);
      ParseResult(if ev.Error? then 0 else TerminatorEnd(buf, k) - 1, [ev])
  }

  lemma FirstTerminatorIs(buf: seq<byte>, k: nat)
    requires k < |buf| && IsTerminator(buf[k])
    requires forall j :: 0 <= j < k ==> !IsTerminator(buf[j])
    ensures FirstTerminator(buf) == Some(k)
  {
  }

  /** `ircmsg_parse` (src/parser.c:38-125) with `found_message_start`
      initialised from `started`. `head` is kept as the C code keeps it:
      written on whitespace and never read. */
  method Scan(buf: seq<byte>, started: bool) returns (consumed: nat, events: seq<Event>)
    ensures ParseResult(consumed, events) == ParseSpec(buf, started)
  {
    var bytesConsumed := 0;
    var hitError := false;
    var foundMessageStart := started;
    var head := 0;
    events := [];
    var iter := 0;
    while iter < |buf|
      invariant iter <= |buf| && bytesConsumed == iter
      invariant
        (events == [] && !hitError &&
         forall j :: 0 <= j < iter ==> !IsTerminator(buf[j])) ||
        (iter == |buf| && hitError && ParseSpec(buf, started) == ParseResult(0, events))
    {
      if IsIrcWhitespace(buf[iter]) {
        head := iter;
      }
      if IsTerminator(buf[iter]) {
        FirstTerminatorIs(buf, iter);
        var step := TerminatorStep(buf, iter, foundMessageStart);
        events := events + [step.event];
        if step.event.Error? {
          hitError := true;
        }
        iter, bytesConsumed := iter + step.extra, bytesConsumed + step.extra;
        if step.breaks {
          break;
        }
      }
      iter, bytesConsumed := iter + 1, bytesConsumed + 1;
    }
    if !foundMessageStart && !hitError {
      events := events + [Error(UnexpectedEndOfMessage)];
      hitError := true;
    }
    consumed := if hitError then 0 else bytesConsumed;
  }

  /** `ircmsg_parse` as written: `found_message_start` is never set, so
      every call reports exactly one error and returns 0. Which error is
      decided by the first terminator alone. */
  method Parse(buf: seq<byte>) returns (consumed: nat, events: seq<Event>)
    ensures consumed == 0
    ensures FirstTerminator(buf).None? ==> events == [Error(UnexpectedEndOfMessage)]
    ensures FirstTerminator(buf).Some? ==>
      var k := FirstTerminator(buf).value;
      events == [Error(if Classify(buf, k) == SamePair then InvalidSentinel else MessageNotFound)]
  {
    consumed, events := Scan(buf, false);
  }

  /** Every call makes at most one terminal callback; it makes none only
      when the flag is set and no terminator is found. `end_message` needs
      the flag, and an error always returns 0. */
  lemma TerminalCallbacks(buf: seq<byte>, started: bool)
    ensures var r := ParseSpec(buf, started);
      |r.events| <= 1 &&
      (|r.events| == 1 <==> !started || FirstTerminator(buf).Some?) &&
      (forall e :: e in r.events && e == EndMessage ==> started) &&
      (forall e :: e in r.events && e.Error? ==> r.consumed == 0)
  {
  }

  /** The count never runs past the buffer. */
  lemma ConsumedWithinBuffer(buf: seq<byte>, started: bool)
    ensures ParseSpec(buf, started).consumed <= |buf|
  {
  }

  /** Scanning stops at the first terminator: once the terminator and the
      byte after it are in the buffer, appending more bytes changes nothing. */
  lemma ParseIgnoresBytesAfterTerminator(buf: seq<byte>, rest: seq<byte>, started: bool)
    requires FirstTerminator(buf).Some? && FirstTerminator(buf).value + 1 < |buf|
    ensures ParseSpec(buf + rest, started) == ParseSpec(buf, started)
  {
    var k := FirstTerminator(buf).value;
    FirstTerminatorIs(buf + rest, k);
  }

  /** `a` and `b` have the same length and the same terminator bytes at the
      same places; they may differ anywhere else. */
  predicate SameTerminators(a: seq<byte>, b: seq<byte>) {
    |a| == |b| &&
    forall i :: 0 <= i < |a| && (IsTerminator(a[i]) || IsTerminator(b[i])) ==> a[i] == b[i]
  }

  /** The outcome depends only on where the terminators are and what they
      are: every other byte, whitespace included, is ignored. */
  lemma ParseDependsOnlyOnTerminators(a: seq<byte>, b: seq<byte>, started: bool)
    requires SameTerminators(a, b)
    ensures ParseSpec(a, started) == ParseSpec(b, started)
  {
  }

  /** Spaces do not change the result: turning any byte other than a
      terminator into a space leaves the outcome as it was. */
  lemma SpacesDoNotMatter(buf: seq<byte>, j: nat, started: bool)
    requires j < |buf| && !IsTerminator(buf[j])
    ensures ParseSpec(buf[j := SPACE], started) == ParseSpec(buf, started)
  {
    ParseDependsOnlyOnTerminators(buf[j := SPACE], buf, started);
  }
}
