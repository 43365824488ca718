/**
 * Line framing of a byte stream (crates/vlorql-llm/src/sse.rs, `sse_lines`). A line ends at LF, or
 * at CR LF (section 9.2.5 of the HTML Standard, without its bare CR); what is left at the end of
 * the input is a last line.
 */
module SseLines {
  import opened Prelude

  type Byte = b: int | 0 <= b < 256

  const LF: Byte := 10
  const CR: Byte := 13

  type Line = seq<Byte>

  // ---- splitting a whole input --------------------------------------------

  /** The index of the first LF, or the length. */
  function LineEnd(bytes: seq<Byte>): (n: nat)
    ensures n <= |bytes|
    ensures LF !in bytes[..n]
    ensures n < |bytes| ==> bytes[n] == LF
  {
    if bytes == [] || bytes[0] == LF then 0
    else
      var n := LineEnd(bytes[1..]);
      assert bytes[..n + 1] == [bytes[0]] + bytes[1..][..n];
      n + 1
  }

  function WithoutCr(raw: seq<Byte>): Line {
    if raw != [] && raw[|raw| - 1] == CR then raw[..|raw| - 1] else raw
  }

  function Split(bytes: seq<Byte>): seq<Line>
    decreases |bytes|
  {
    var n := LineEnd(bytes);
    if n < |bytes| then [WithoutCr(bytes[..n])] + Split(bytes[n + 1..])
    else if bytes == [] then []
    else [bytes]
  }

  lemma {:induction false} EndsAt(raw: seq<Byte>, rest: seq<Byte>)
    requires LF !in raw
    ensures LineEnd(raw + [LF] + rest) == |raw|
  {
    var bytes := raw + [LF] + rest;
    if raw != [] {
      assert raw[0] == bytes[0];
      EndsAt(raw[1..], rest);
      assert bytes[1..] == raw[1..] + [LF] + rest;
    }
  }

  // ---- the same without an algorithm: lines and their endings make up the input ---

  datatype Ending = Newline | CarriageNewline | EndOfInput

  function Terminator(ending: Ending): seq<Byte> {
    match ending
    case Newline => [LF]
    case CarriageNewline => [CR, LF]
    case EndOfInput => []
  }

  ghost predicate FirstLine(bytes: seq<Byte>, line: Line, ending: Ending, rest: seq<Byte>) {
    && bytes == line + Terminator(ending) + rest
    && LF !in line
    && (ending.Newline? ==> WithoutCr(line) == line)
    && (ending.EndOfInput? ==> line != [] && rest == [])
  }

  ghost predicate Frames(bytes: seq<Byte>, lines: seq<Line>)
    decreases |lines|
  {
    if lines == [] then bytes == []
    else exists ending, rest :: FirstLine(bytes, lines[0], ending, rest) && Frames(rest, lines[1..])
  }

  lemma SplitFirstLine(bytes: seq<Byte>, line: Line, ending: Ending, rest: seq<Byte>)
    requires FirstLine(bytes, line, ending, rest)
    ensures Split(bytes) == [line] + Split(rest)
  {
    hide LineEnd;
    if ending == EndOfInput {
      assert bytes == line;
      NoEnd(bytes);
    } else {
      var raw := if ending == Newline then line else line + [CR];
      assert bytes == raw + [LF] + rest;
      EndsAt(raw, rest);
      assert bytes[..|raw|] == raw;
      assert bytes[|raw| + 1..] == rest;
      assert WithoutCr(raw) == line;
    }
  }

  lemma NoEnd(bytes: seq<Byte>)
    requires LF !in bytes
    ensures LineEnd(bytes) == |bytes|
  {}

  /** Only one list of lines frames an input, and that is the one `Split` computes. */
  lemma {:induction false} SplitIffFrames(bytes: seq<Byte>, lines: seq<Line>)
    ensures Frames(bytes, lines) <==> lines == Split(bytes)
    decreases |bytes|, |lines|
  {
    hide LineEnd, WithoutCr;
    if Frames(bytes, lines) && lines != [] {
      var ending, rest :| FirstLine(bytes, lines[0], ending, rest) && Frames(rest, lines[1..]);
      SplitFirstLine(bytes, lines[0], ending, rest);
      assert |rest| <= |bytes|;
      SplitIffFrames(rest, lines[1..]);
    }
    if lines == Split(bytes) && bytes != [] {
      var ending, rest := FirstOf(bytes);
      assert |rest| < |bytes|;
      SplitIffFrames(rest, lines[1..]);
    }
  }

  lemma FirstOf(bytes: seq<Byte>) returns (ending: Ending, rest: seq<Byte>)
    requires bytes != []
    ensures FirstLine(bytes, Split(bytes)[0], ending, rest)
    ensures Split(bytes)[1..] == Split(rest) && |rest| < |bytes|
  {
    hide LineEnd;
    var n := LineEnd(bytes);
    if n == |bytes| {
      ending, rest := EndOfInput, [];
      assert bytes[..n] == bytes;
    } else {
      rest := bytes[n + 1..];
      assert bytes == bytes[..n] + [LF] + rest;
      ending := EndingOf(bytes[..n]);
      RawLine(bytes[..n], rest);
    }
  }

  function EndingOf(raw: seq<Byte>): Ending {
    if WithoutCr(raw) == raw then Newline else CarriageNewline
  }

  lemma LastFramed(remaining: seq<Byte>)
    requires LF !in remaining && remaining != []
    ensures Framed(remaining, []) == [Read(remaining)] + Framed([], [])
  {
    hide Split;
    NoLineFramed(remaining);
    NoLineFramed([]);
  }

  lemma LastLine(raw: seq<Byte>)
    requires LF !in raw && raw != []
    ensures FirstLine(raw, raw, EndOfInput, [])
  {}

  lemma RawLine(raw: seq<Byte>, rest: seq<Byte>)
    requires LF !in raw
    ensures FirstLine(raw + [LF] + rest, WithoutCr(raw), EndingOf(raw), rest)
  {
    if WithoutCr(raw) != raw {
      assert raw == WithoutCr(raw) + [CR];
    }
  }

  // ---- the stream ---------------------------------------------------------

  /** What polling the byte stream can give; once it has nothing left it has ended for good. */
  datatype Polled = Chunk(bytes: seq<Byte>) | Fault(error: string) | NotReady

  datatype Item = Read(line: Line) | Failed(error: string)

  datatype Poll = Ready(item: Option<Item>) | Pending

  /** All the bytes still to come. */
  function Bytes(inner: seq<Polled>): seq<Byte> {
    if inner == [] then []
    else if inner[0].Chunk? then inner[0].bytes + Bytes(inner[1..])
    else Bytes(inner[1..])
  }

  function Faults(inner: seq<Polled>): seq<string> {
    if inner == [] then []
    else if inner[0].Fault? then [inner[0].error] + Faults(inner[1..])
    else Faults(inner[1..])
  }

  function LinesOf(items: seq<Item>): seq<Line> {
    if items == [] then []
    else if items[|items| - 1].Read? then LinesOf(items[..|items| - 1]) + [items[|items| - 1].line]
    else LinesOf(items[..|items| - 1])
  }

  function FailuresOf(items: seq<Item>): seq<string> {
    if items == [] then []
    else if items[|items| - 1].Failed? then FailuresOf(items[..|items| - 1]) + [items[|items| - 1].error]
    else FailuresOf(items[..|items| - 1])
  }

  // ---- what a stream yields, in order -------------------------------------

  /** The lines of `bytes` that have ended, and what follows the last of them. */
  function Complete(bytes: seq<Byte>): seq<Line>
    decreases |bytes|
  {
    var n := LineEnd(bytes);
    if n < |bytes| then [WithoutCr(bytes[..n])] + Complete(bytes[n + 1..]) else []
  }

  function Tail(bytes: seq<Byte>): seq<Byte>
    decreases |bytes|
  {
    var n := LineEnd(bytes);
    if n < |bytes| then Tail(bytes[n + 1..]) else bytes
  }

  function Reads(lines: seq<Line>): (items: seq<Item>)
    ensures |items| == |lines|
    ensures forall i :: 0 <= i < |items| ==> items[i] == Read(lines[i])
  {
    seq(|lines|, i requires 0 <= i < |lines| => Read(lines[i]))
  }

  /** A fault comes after the lines that ended before it, and leaves the unfinished one as it is. */
  function Framed(buffer: seq<Byte>, inner: seq<Polled>): seq<Item>
    decreases |inner|
  {
    if inner == [] then Reads(Split(buffer))
    else
      match inner[0]
      case Chunk(bytes) => Framed(buffer + bytes, inner[1..])
      case Fault(error) => Reads(Complete(buffer)) + [Failed(error)] + Framed(Tail(buffer), inner[1..])
      case NotReady => Framed(buffer, inner[1..])
  }

  lemma LineSplitsOff(raw: seq<Byte>, rest: seq<Byte>)
    requires LF !in raw
    ensures
      var bytes := raw + [LF] + rest;
      && Split(bytes) == [WithoutCr(raw)] + Split(rest)
      && Complete(bytes) == [WithoutCr(raw)] + Complete(rest)
      && Tail(bytes) == Tail(rest)
  {
    hide LineEnd, WithoutCr;
    var bytes := raw + [LF] + rest;
    EndsAt(raw, rest);
    assert bytes[..|raw|] == raw;
    assert bytes[|raw| + 1..] == rest;
  }

  lemma {:induction false} FirstFramed(raw: seq<Byte>, rest: seq<Byte>, inner: seq<Polled>)
    requires LF !in raw
    ensures Framed(raw + [LF] + rest, inner) == [Read(WithoutCr(raw))] + Framed(rest, inner)
    decreases |inner|
  {
    hide LineEnd, WithoutCr, Split, Complete, Tail;
    LineSplitsOff(raw, rest);
    if inner != [] {
      match inner[0]
      case Chunk(bytes) =>
        assert raw + [LF] + rest + bytes == raw + [LF] + (rest + bytes);
        FirstFramed(raw, rest + bytes, inner[1..]);
      case Fault(_) =>
      case NotReady => FirstFramed(raw, rest, inner[1..]);
    }
  }

  lemma NoLineFramed(buffer: seq<Byte>)
    requires LF !in buffer
    ensures Split(buffer) == if buffer == [] then [] else [buffer]
    ensures Complete(buffer) == [] && Tail(buffer) == buffer
  {
    NoEnd(buffer);
    hide LineEnd;
  }

  function Newlines(bytes: seq<Byte>): nat {
    if bytes == [] then 0 else (if bytes[0] == LF then 1 else 0) + Newlines(bytes[1..])
  }

  lemma {:induction false} NewlinesAdd(a: seq<Byte>, b: seq<Byte>)
    ensures Newlines(a + b) == Newlines(a) + Newlines(b)
  {
    if a == [] {
      assert a + b == b;
    } else {
      assert (a + b)[1..] == a[1..] + b;
      NewlinesAdd(a[1..], b);
    }
  }

  lemma {:induction false} NoNewlines(bytes: seq<Byte>)
    requires LF !in bytes
    ensures Newlines(bytes) == 0
  {
    if bytes != [] { NoNewlines(bytes[1..]); }
  }

  lemma {:induction false} CompleteCounts(bytes: seq<Byte>)
    ensures |Complete(bytes)| == Newlines(bytes)
    ensures Newlines(Tail(bytes)) == 0
    decreases |bytes|
  {
    hide LineEnd, WithoutCr, Newlines, Split, Complete, Tail;
    var n := LineEnd(bytes);
    if n < |bytes| {
      var raw, rest := bytes[..n], bytes[n + 1..];
      assert bytes == raw + [LF] + rest;
      CompleteCounts(rest);
      LineSplitsOff(raw, rest);
      OneNewline(raw, rest);
    } else {
      assert bytes[..n] == bytes;
      NoNewlines(bytes);
      NoLineFramed(bytes);
    }
  }

  lemma OneNewline(raw: seq<Byte>, rest: seq<Byte>)
    requires LF !in raw
    ensures Newlines(raw + [LF] + rest) == 1 + Newlines(rest)
  {
    NoNewlines(raw);
    NewlinesAdd(raw + [LF], rest);
    NewlinesAdd(raw, [LF]);
    assert [LF][1..] == [];
  }

  /** Before a fault stand one item per newline that came before it, and the earlier faults. */
  lemma {:induction false} FaultStandsAt(buffer: seq<Byte>, before: seq<Polled>, error: string, after: seq<Polled>)
    ensures
      var items := Framed(buffer, before + [Fault(error)] + after);
      var n := Newlines(buffer) + Newlines(Bytes(before)) + |Faults(before)|;
      n < |items| && items[n] == Failed(error)
    decreases |before|
  {
    hide Complete, Tail, Split, Newlines;
    var inner := before + [Fault(error)] + after;
    CompleteCounts(buffer);
    if before == [] {
      assert Newlines(Bytes(before)) == 0 by { NoNewlines([]); }
      assert inner[0] == Fault(error);
    } else {
      var rest := before[1..];
      assert inner[1..] == rest + [Fault(error)] + after;
      match before[0]
      case Chunk(bytes) =>
        FaultStandsAt(buffer + bytes, rest, error, after);
        NewlinesAdd(buffer, bytes);
        NewlinesAdd(bytes, Bytes(rest));
      case Fault(_) => FaultStandsAt(Tail(buffer), rest, error, after);
      case NotReady => FaultStandsAt(buffer, rest, error, after);
    }
  }

  /** Without faults the items are the lines of the whole input, however it was cut. */
  lemma {:induction false} FaultFreeFramed(buffer: seq<Byte>, inner: seq<Polled>)
    requires Faults(inner) == []
    ensures Framed(buffer, inner) == Reads(Split(buffer + Bytes(inner)))
    decreases |inner|
  {
    hide Split, Reads;
    if inner == [] {
      assert buffer + Bytes(inner) == buffer;
    } else {
      match inner[0]
      case Chunk(bytes) =>
        FaultFreeFramed(buffer + bytes, inner[1..]);
        assert buffer + Bytes(inner) == buffer + bytes + Bytes(inner[1..]);
      case NotReady => FaultFreeFramed(buffer, inner[1..]);
    }
  }

  lemma {:induction false} ItemsAdd(a: seq<Item>, b: seq<Item>)
    ensures LinesOf(a + b) == LinesOf(a) + LinesOf(b)
    ensures FailuresOf(a + b) == FailuresOf(a) + FailuresOf(b)
  {
    if b == [] {
      assert a + b == a;
    } else {
      assert (a + b)[..|a + b| - 1] == a + b[..|b| - 1];
      ItemsAdd(a, b[..|b| - 1]);
    }
  }

  lemma {:induction false} ReadsAreLines(lines: seq<Line>)
    ensures LinesOf(Reads(lines)) == lines && FailuresOf(Reads(lines)) == []
  {
    if lines != [] {
      var n := |lines| - 1;
      ReadsAreLines(lines[..n]);
      assert Reads(lines)[..n] == Reads(lines[..n]);
      assert lines == lines[..n] + [lines[n]];
    }
  }

  /** What has ended can be split off before the rest is known. */
  lemma {:induction false} CompleteSplits(bytes: seq<Byte>, more: seq<Byte>)
    ensures Split(bytes + more) == Complete(bytes) + Split(Tail(bytes) + more)
    decreases |bytes|
  {
    hide LineEnd, WithoutCr, Split;
    var n := LineEnd(bytes);
    if n < |bytes| {
      var raw, rest := bytes[..n], bytes[n + 1..];
      assert bytes + more == raw + [LF] + (rest + more);
      LineSplitsOff(raw, rest + more);
      CompleteSplits(rest, more);
    }
  }

  /** The items hold the lines of the whole input and the faults, each in order. */
  lemma {:induction false} FramedSplits(buffer: seq<Byte>, inner: seq<Polled>)
    ensures LinesOf(Framed(buffer, inner)) == Split(buffer + Bytes(inner))
    ensures FailuresOf(Framed(buffer, inner)) == Faults(inner)
    decreases |inner|
  {
    hide Split, Complete, Tail, LinesOf, FailuresOf, Reads;
    if inner == [] {
      assert buffer + Bytes(inner) == buffer;
      ReadsAreLines(Split(buffer));
    } else {
      match inner[0]
      case Chunk(bytes) =>
        assert buffer + Bytes(inner) == buffer + bytes + Bytes(inner[1..]);
        FramedSplits(buffer + bytes, inner[1..]);
      case Fault(error) =>
        FramedSplits(Tail(buffer), inner[1..]);
        CompleteSplits(buffer, Bytes(inner));
        var read, rest := Reads(Complete(buffer)), Framed(Tail(buffer), inner[1..]);
        ItemsAdd(read + [Failed(error)], rest);
        ItemsAdd(read, [Failed(error)]);
        ReadsAreLines(Complete(buffer));
        OneFailure(error);
      case NotReady => FramedSplits(buffer, inner[1..]);
    }
  }

  lemma OneFailure(error: string)
    ensures LinesOf([Failed(error)]) == [] && FailuresOf([Failed(error)]) == [error]
  {
    assert [Failed(error)][..0] == [];
  }

  class SseLines {
    var inner: seq<Polled>
    var buffer: seq<Byte>

    constructor (byteStream: seq<Polled>)
      ensures inner == byteStream && buffer == []
    {
      inner, buffer := byteStream, [];
    }

    /** Everything that has been neither yielded nor dropped as a terminator. */
    ghost function Unread(): seq<Byte>
      reads this
    {
      buffer + Bytes(inner)
    }

    /** The items still to come. */
    ghost function Expected(): seq<Item>
      reads this
    {
      Framed(buffer, inner)
    }

    method Position() returns (index: Option<nat>)
      ensures index == if LineEnd(buffer) < |buffer| then Some(LineEnd(buffer)) else None
    {
      for i := 0 to |buffer|
        invariant LF !in buffer[..i]
      {
        if buffer[i] == LF {
          assert buffer == buffer[..i] + [LF] + buffer[i + 1..];
          EndsAt(buffer[..i], buffer[i + 1..]);
          return Some(i);
        }
      }
      assert buffer[..|buffer|] == buffer;
      NoEnd(buffer);
      return None;
    }

    method TakeLine() returns (line: Option<Line>)
      modifies this`buffer
      ensures line.Some? <==> LF in old(buffer)
      ensures line.None? ==> buffer == old(buffer)
      ensures line.Some? ==> exists raw ::
        && old(buffer) == raw + [LF] + buffer
        && LF !in raw && line.value == WithoutCr(raw)
    {
      hide LineEnd;
      var index := Position();
      if index.None? {
        assert buffer[..LineEnd(buffer)] == buffer;
        return None;
      }
      var end := index.value;
      if end > 0 && buffer[end - 1] == CR { end := end - 1; }
      ghost var raw := buffer[..index.value];
      assert buffer == raw + [LF] + buffer[index.value + 1..];
      line := Some(buffer[..end]);
      buffer := buffer[index.value + 1..];
    }

    /**
     * A poll yields the next line of what is unread, or passes a fault or the end of the input on,
     * or asks to be polled again: also after a chunk that completed no line.
     */
    method PollNext() returns (poll: Poll)
      modifies this
      ensures LF in old(buffer) ==> inner == old(inner) && poll.Ready?
      ensures LF !in old(buffer) && old(inner) != [] ==> inner == old(inner)[1..]
      ensures poll.Pending? <==>
        && LF !in old(buffer) && old(inner) != []
        && (old(inner)[0].NotReady? || (old(inner)[0].Chunk? && LF !in old(inner)[0].bytes))
      ensures poll.Pending? ==> Unread() == old(Unread()) && Faults(inner) == Faults(old(inner)) && LF !in buffer
      ensures poll == Ready(None) ==> old(Unread()) == [] && old(inner) == [] && inner == [] && buffer == []
      ensures poll.Ready? && poll.item.Some? && poll.item.value.Read? ==>
        && Faults(inner) == Faults(old(inner))
        && exists ending :: FirstLine(old(Unread()), poll.item.value.line, ending, Unread())
      ensures poll.Ready? && poll.item.Some? && poll.item.value.Failed? ==>
        && Unread() == old(Unread())
        && Faults(old(inner)) == [poll.item.value.error] + Faults(inner)
      ensures poll.Pending? ==> Expected() == old(Expected())
      ensures poll == Ready(None) ==> old(Expected()) == []
      ensures poll.Ready? && poll.item.Some? ==> old(Expected()) == [poll.item.value] + Expected()
      ensures poll != Ready(None) ==> |inner| < |old(inner)| || (inner == old(inner) && |buffer| < |old(buffer)|)
    {
      hide FirstLine, LineEnd, WithoutCr, Split, Complete, Tail;
      var line := TakeLine();
      if line.Some? {
        TakenIsFramed(old(buffer), line.value, buffer, inner);
        TakenIsFirst(old(buffer), line.value, buffer, Bytes(inner));
        assert old(Unread()) == old(buffer) + Bytes(inner) && Unread() == buffer + Bytes(inner);
        return Ready(Some(Read(line.value)));
      }
      NoLineFramed(buffer);
      if inner == [] {
        if buffer == [] { return Ready(None); }
        var remaining := buffer;
        buffer := [];
        assert old(Unread()) == remaining && Unread() == [];
        LastLine(remaining);
        LastFramed(remaining);
        return Ready(Some(Read(remaining)));
      }
      var polled := inner[0];
      inner := inner[1..];
      match polled
      case Chunk(bytes) =>
        assert old(Unread()) == buffer + bytes + Bytes(inner);
        buffer := buffer + bytes;
        ghost var whole := buffer;
        line := TakeLine();
        if line.Some? {
          TakenIsFramed(whole, line.value, buffer, inner);
          TakenIsFirst(whole, line.value, buffer, Bytes(inner));
          assert old(Unread()) == whole + Bytes(inner) && Unread() == buffer + Bytes(inner);
          return Ready(Some(Read(line.value)));
        }
        return Pending;
      case Fault(error) => return Ready(Some(Failed(error)));
      case NotReady => return Pending;
    }

    /** A caller that polls until the end. */
    method Collect() returns (items: seq<Item>)
      modifies this
      ensures items == old(Expected())
      ensures LinesOf(items) == Split(old(Unread())) && FailuresOf(items) == Faults(old(inner))
    {
      hide Split, FirstLine, Bytes, Framed, Faults, LinesOf, FailuresOf;
      FramedSplits(buffer, inner);
      items := [];
      while true
        invariant items + Expected() == old(Expected())
        decreases |inner|, |buffer|
      {
        var poll := PollNext();
        if poll == Ready(None) { return; }
        if poll.Ready? { items := items + [poll.item.value]; }
      }
    }
  }

  lemma TakenIsFramed(buffer: seq<Byte>, line: Line, rest: seq<Byte>, inner: seq<Polled>)
    requires exists raw :: buffer == raw + [LF] + rest && LF !in raw && line == WithoutCr(raw)
    ensures Framed(buffer, inner) == [Read(line)] + Framed(rest, inner)
  {
    var raw :| buffer == raw + [LF] + rest && LF !in raw && line == WithoutCr(raw);
    FirstFramed(raw, rest, inner);
  }

  lemma TakenIsFirst(buffer: seq<Byte>, line: Line, rest: seq<Byte>, more: seq<Byte>)
    requires exists raw :: buffer == raw + [LF] + rest && LF !in raw && line == WithoutCr(raw)
    ensures exists ending :: FirstLine(buffer + more, line, ending, rest + more)
  {
    var raw :| buffer == raw + [LF] + rest && LF !in raw && line == WithoutCr(raw);
    RawLine(raw, rest + more);
    assert buffer + more == raw + [LF] + (rest + more);
  }
}
