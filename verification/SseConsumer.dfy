/**
 * The consumer of a server-sent event stream (crates/vlorql-llm/src/sse.rs,
 * `drive_sse_consumer_with`): it forwards the text of each data line and gives up on the last of
 * its attempts. An attempt goes on with the same line stream.
 */
module SseConsumer {
  import opened Prelude
  import opened Json
  import opened Channels

  const SSE_DONE := "[DONE]"
  const DATA_PREFIX := "data:"

  datatype Item = Line(text: string) | Fault(error: string)

  type Message = Result<string, string>

  // ---- one line -----------------------------------------------------------

  /** The characters with the Unicode property White_Space. */
  predicate IsWhitespace(c: char) {
    var p := c as int;
    || 0x9 <= p <= 0xd || 0x2000 <= p <= 0x200a
    || p in {0x20, 0x85, 0xa0, 0x1680, 0x2028, 0x2029, 0x202f, 0x205f, 0x3000}
  }

  function TrimStart(s: string): string {
    if s != [] && IsWhitespace(s[0]) then TrimStart(s[1..]) else s
  }

  function TrimEnd(s: string): string {
    if s != [] && IsWhitespace(s[|s| - 1]) then TrimEnd(s[..|s| - 1]) else s
  }

  function Trim(s: string): string {
    TrimEnd(TrimStart(s))
  }

  /** How the provider's payloads are read: JSON parsing, and picking the text out of a value. */
  datatype Reader = Reader(parse: string -> Option<Json>, extract: Json -> Option<string>)

  datatype Signal = Skip | Done | Text(content: string)

  function SignalOf(payload: string, reader: Reader): (s: Signal)
    ensures s.Text? ==> s.content != ""
  {
    if payload == SSE_DONE then Done
    else
      match reader.parse(payload)
      case None => Skip
      case Some(value) =>
        match reader.extract(value)
        case None => Skip
        case Some(content) => if content == "" then Skip else Text(content)
  }

  function Classify(line: string, reader: Reader): Signal {
    var trimmed := Trim(line);
    if trimmed == "" then Skip
    else if !(DATA_PREFIX <= trimmed) then Skip
    else SignalOf(Trim(trimmed[|DATA_PREFIX|..]), reader)
  }

  ghost predicate Blank(s: string) {
    forall i :: 0 <= i < |s| ==> IsWhitespace(s[i])
  }

  ghost predicate Tight(s: string) {
    s == "" || (!IsWhitespace(s[0]) && !IsWhitespace(s[|s| - 1]))
  }

  ghost predicate Padded(s: string, before: string, t: string, after: string) {
    Blank(before) && Tight(t) && Blank(after) && s == before + t + after
  }

  lemma {:induction false} StartIs(s: string) returns (before: string)
    ensures Blank(before) && s == before + TrimStart(s)
    ensures TrimStart(s) != "" ==> !IsWhitespace(TrimStart(s)[0])
  {
    hide IsWhitespace;
    if s != "" && IsWhitespace(s[0]) {
      var b := StartIs(s[1..]);
      before := [s[0]] + b;
      assert s == [s[0]] + s[1..];
    } else {
      before := "";
    }
  }

  lemma {:induction false} EndIs(s: string) returns (after: string)
    ensures Blank(after) && s == TrimEnd(s) + after
    ensures var t := TrimEnd(s); t != "" ==> !IsWhitespace(t[|t| - 1])
  {
    hide IsWhitespace;
    if s != "" && IsWhitespace(s[|s| - 1]) {
      var n := |s| - 1;
      var b := EndIs(s[..n]);
      after := b + [s[n]];
      assert s == s[..n] + [s[n]];
    } else {
      after := "";
    }
  }

  lemma {:induction false} StartSkips(blank: string, rest: string)
    requires Blank(blank)
    ensures TrimStart(blank + rest) == TrimStart(rest)
  {
    if blank == "" {
      assert blank + rest == rest;
    } else {
      assert (blank + rest)[1..] == blank[1..] + rest;
      StartSkips(blank[1..], rest);
    }
  }

  lemma {:induction false} EndSkips(rest: string, blank: string)
    requires Blank(blank)
    ensures TrimEnd(rest + blank) == TrimEnd(rest)
  {
    if blank == "" {
      assert rest + blank == rest;
    } else {
      var n := |blank| - 1;
      assert (rest + blank)[..|rest + blank| - 1] == rest + blank[..n];
      EndSkips(rest, blank[..n]);
    }
  }

  /** Trimming takes off blanks, and all of them. */
  lemma TrimIff(s: string, t: string)
    ensures Trim(s) == t <==> exists before, after :: Padded(s, before, t, after)
  {
    hide Trim, Padded;
    var before, after := Trimmings(s);
    forall before, after | Padded(s, before, t, after)
      ensures Trim(s) == t
    {
      TrimOfPadded(s, before, t, after);
    }
  }

  /** What trimming takes off. */
  lemma Trimmings(s: string) returns (before: string, after: string)
    ensures Padded(s, before, Trim(s), after)
  {
    hide TrimStart, TrimEnd, IsWhitespace;
    before := StartIs(s);
    var start := TrimStart(s);
    after := EndIs(start);
    var trimmed := TrimEnd(start);
    assert s == before + trimmed + after;
    if trimmed != "" { assert trimmed[0] == start[0]; }
  }

  lemma TrimOfPadded(s: string, before: string, t: string, after: string)
    requires Padded(s, before, t, after)
    ensures Trim(s) == t
  {
    assert before + t + after == before + (t + after);
    StartSkips(before, t + after);
    if t == "" {
      StartSkips(after, "");
      assert t + after == after == after + "";
    } else {
      assert TrimStart(t + after) == t + after;
      EndSkips(t, after);
    }
  }

  /** The line is `data:` and the payload, with blanks around either. */
  ghost predicate DataLine(line: string, before: string, between: string, payload: string, after: string) {
    && Blank(before) && Blank(between) && Blank(after) && Tight(payload)
    && line == before + "data:" + between + payload + after
  }

  /** A data line is judged by its payload. */
  lemma DataLineIsRead(
    line: string, before: string, between: string, payload: string, after: string, reader: Reader)
    requires DataLine(line, before, between, payload, after)
    ensures Classify(line, reader) == SignalOf(payload, reader)
  {
    hide SignalOf, IsWhitespace, Trim;
    NoBlankInPrefix();
    if payload == "" {
      assert line == before + DATA_PREFIX + (between + after);
      assert Padded(line, before, DATA_PREFIX, between + after);
      TrimIff(line, DATA_PREFIX);
      assert Padded("", "", "", "");
      TrimIff("", "");
      assert DATA_PREFIX[|DATA_PREFIX|..] == "";
    } else {
      var trimmed := DATA_PREFIX + between + payload;
      assert line == before + trimmed + after;
      assert Padded(line, before, trimmed, after);
      TrimIff(line, trimmed);
      assert trimmed[|DATA_PREFIX|..] == between + payload;
      assert Padded(between + payload, between, payload, "");
      TrimIff(between + payload, payload);
    }
  }

  lemma NoBlankInPrefix()
    ensures Tight(DATA_PREFIX)
  {}

  /** Any other line is skipped. */
  lemma OtherLinesAreSkipped(line: string, reader: Reader)
    ensures Classify(line, reader).Skip?
         || exists before, between, payload, after :: DataLine(line, before, between, payload, after)
  {
    hide SignalOf, IsWhitespace, Trim;
    var trimmed := Trim(line);
    if DATA_PREFIX <= trimmed {
      TrimIff(line, trimmed);
      var before, after :| Padded(line, before, trimmed, after);
      var rest := trimmed[|DATA_PREFIX|..];
      TrimIff(rest, Trim(rest));
      var between, end :| Padded(rest, between, Trim(rest), end);
      assert trimmed == DATA_PREFIX + rest;
      assert line == before + DATA_PREFIX + between + Trim(rest) + (end + after);
      assert DataLine(line, before, between, Trim(rest), end + after);
    }
  }

  // ---- what a line signals ------------------------------------------------

  /** The line is a data line with this payload. */
  ghost predicate Carries(line: string, payload: string) {
    exists before, between, after :: DataLine(line, before, between, payload, after)
  }

  /** The payload is a value from which text can be picked, and that text. */
  predicate Yields(payload: string, reader: Reader, content: string) {
    && payload != "[DONE]" && content != ""
    && reader.parse(payload).Some?
    && reader.extract(reader.parse(payload).value) == Some(content)
  }

  lemma PayloadIff(payload: string, reader: Reader)
    ensures SignalOf(payload, reader) == Done <==> payload == "[DONE]"
    ensures forall content :: SignalOf(payload, reader) == Text(content) <==> Yields(payload, reader, content)
  {
  }

  /**
   Every line ends the stream if its payload is the done marker, gives a text if its payload
   parses to a value with a nonempty one, and is skipped otherwise: a payload that does not parse
   is no reason to stop.
   */
  lemma LineSignalsIff(line: string, reader: Reader)
    ensures Classify(line, reader) == Done <==> Carries(line, "[DONE]")
    ensures forall content ::
      Classify(line, reader) == Text(content) <==>
        exists payload :: Carries(line, payload) && Yields(payload, reader, content)
  {
    hide SignalOf, DataLine, Yields, Classify;
    if payload :| Carries(line, payload) {
      CarriedIsRead(line, payload, reader);
      PayloadIff(payload, reader);
      forall other | Carries(line, other) ensures other == payload {
        OnePayload(line, payload, other);
      }
    } else {
      SkippedOrCarried(line, reader);
    }
  }

  lemma SkippedOrCarried(line: string, reader: Reader)
    ensures Classify(line, reader).Skip? || exists payload :: Carries(line, payload)
  {
    hide DataLine, Classify;
    OtherLinesAreSkipped(line, reader);
    if !Classify(line, reader).Skip? {
      var before, between, payload, after :| DataLine(line, before, between, payload, after);
      assert Carries(line, payload);
    }
  }

  lemma CarriedIsRead(line: string, payload: string, reader: Reader)
    requires Carries(line, payload)
    ensures Classify(line, reader) == SignalOf(payload, reader)
  {
    hide DataLine, Classify, SignalOf;
    var before, between, after :| DataLine(line, before, between, payload, after);
    DataLineIsRead(line, before, between, payload, after, reader);
  }

  /** A line has only one payload. */
  lemma OnePayload(line: string, p: string, q: string)
    requires Carries(line, p) && Carries(line, q)
    ensures p == q
  {
    hide DataLine, Classify;
    var probe := Reader(s => Some(Str(s)), (v: Json) => if v.Str? then Some([' '] + v.s) else None);
    CarriedIsRead(line, p, probe);
    CarriedIsRead(line, q, probe);
    assert SignalOf(p, probe) == SignalOf(q, probe);
    PayloadIff(p, probe);
    PayloadIff(q, probe);
    if p != "[DONE]" && q != "[DONE]" {
      assert Yields(p, probe, [' '] + p) && Yields(q, probe, [' '] + q);
      assert ([' '] + p)[1..] == p && ([' '] + q)[1..] == q;
    }
  }

  /** The code points of the White_Space property, by their decimal numbers. */
  lemma WhitespaceIs(c: char)
    ensures IsWhitespace(c) <==>
      var n := c as int;
      || n in {9, 10, 11, 12, 13, 32, 133, 160, 5760, 8232, 8233, 8239, 8287, 12288}
      || 8192 <= n <= 8202
  {
  }

  // ---- what a run delivers ------------------------------------------------

  datatype Ending = SawDone | GaveUp(error: string) | Ended

  datatype Outcome = Outcome(texts: seq<string>, ending: Ending, rest: seq<Item>)

  type Classifier = string -> Signal

  function Reading(reader: Reader): Classifier {
    (line: string) => Classify(line, reader)
  }

  /** The run over `items` with `budget` attempts left. */
  function Run(items: seq<Item>, budget: nat, read: Classifier): Outcome
    requires budget > 0
  {
    if items == [] then Outcome([], Ended, [])
    else if items[0].Fault? then
      if budget == 1 then Outcome([], GaveUp(items[0].error), items[1..]) else Run(items[1..], budget - 1, read)
    else
      match read(items[0].text)
      case Skip => Run(items[1..], budget, read)
      case Done => Outcome([], SawDone, items[1..])
      case Text(content) =>
        var o := Run(items[1..], budget, read);
        o.(texts := [content] + o.texts)
  }

  function Messages(o: Outcome): seq<Message> {
    Successes(o.texts) + (if o.ending.GaveUp? then [Failure(o.ending.error)] else [])
  }

  predicate IsDone(item: Item, read: Classifier) {
    item.Line? && read(item.text).Done?
  }

  function FaultCount(items: seq<Item>): nat {
    if items == [] then 0
    else FaultCount(items[..|items| - 1]) + (if items[|items| - 1].Fault? then 1 else 0)
  }

  function TextOf(item: Item, read: Classifier): seq<string> {
    if item.Line? && read(item.text).Text? then [read(item.text).content] else []
  }

  /** The texts of the data lines among `items`, in order. */
  function Texts(items: seq<Item>, read: Classifier): seq<string> {
    if items == [] then [] else Texts(items[..|items| - 1], read) + TextOf(items[|items| - 1], read)
  }

  /** Item `n` is the first done marker or the last fault the attempts allow, or the end is reached. */
  ghost predicate StopsAt(items: seq<Item>, attempts: nat, read: Classifier, n: nat) {
    && n <= |items|
    && (forall i :: 0 <= i < n ==> !IsDone(items[i], read))
    && FaultCount(items[..n]) < attempts
    && (n < |items| ==>
          || IsDone(items[n], read)
          || (items[n].Fault? && FaultCount(items[..n]) == attempts - 1))
  }

  ghost function EndingAt(items: seq<Item>, n: nat): Ending
    requires n <= |items|
  {
    if n == |items| then Ended
    else if items[n].Fault? then GaveUp(items[n].error)
    else SawDone
  }

  lemma {:induction false} FaultCountOfRest(items: seq<Item>)
    requires items != []
    ensures FaultCount(items) == (if items[0].Fault? then 1 else 0) + FaultCount(items[1..])
  {
    if |items| > 1 {
      var init := items[..|items| - 1];
      FaultCountOfRest(init);
      assert items[1..][..|items[1..]| - 1] == init[1..];
    }
  }

  lemma {:induction false} TextsOfRest(items: seq<Item>, read: Classifier)
    requires items != []
    ensures Texts(items, read) == TextOf(items[0], read) + Texts(items[1..], read)
  {
    hide TextOf;
    if |items| > 1 {
      var init := items[..|items| - 1];
      TextsOfRest(init, read);
      assert items[1..][..|items[1..]| - 1] == init[1..];
    } else {
      assert items[..|items| - 1] == [];
    }
  }

  /** A run delivers the texts before a stopping point, and then the error, if that is one. */
  lemma {:induction false} RunStops(items: seq<Item>, attempts: nat, read: Classifier, n: nat)
    requires attempts > 0
    requires StopsAt(items, attempts, read, n)
    ensures Run(items, attempts, read) ==
      Outcome(Texts(items[..n], read), EndingAt(items, n), if n < |items| then items[n + 1..] else [])
  {
    hide Run, Texts, FaultCount;
    NothingBefore(items, read);
    RunUnfolds(items, attempts, read);
    if n > 0 {
      var rest := items[1..];
      var left := if items[0].Fault? then attempts - 1 else attempts;
      FaultCountOfRest(items[..n]);
      TextsOfRest(items[..n], read);
      assert items[..n][1..] == rest[..n - 1];
      forall i | 0 <= i < n - 1
        ensures !IsDone(rest[i], read)
      {
        assert rest[i] == items[i + 1];
      }
      assert !IsDone(items[0], read);
      RunStops(rest, left, read, n - 1);
      assert n < |items| ==> rest[n..] == items[n + 1..];
    }
  }

  lemma NothingBefore(items: seq<Item>, read: Classifier)
    ensures Texts(items[..0], read) == [] && FaultCount(items[..0]) == 0
  {}

  lemma RunUnfolds(items: seq<Item>, budget: nat, read: Classifier)
    requires budget > 0
    ensures items == [] ==> Run(items, budget, read) == Outcome([], Ended, [])
    ensures items != [] && items[0].Fault? ==>
      Run(items, budget, read) ==
        if budget == 1 then Outcome([], GaveUp(items[0].error), items[1..]) else Run(items[1..], budget - 1, read)
    ensures items != [] && items[0].Line? ==>
      Run(items, budget, read) ==
        match read(items[0].text)
        case Done => Outcome([], SawDone, items[1..])
        case Skip => Run(items[1..], budget, read)
        case Text(content) =>
          var o := Run(items[1..], budget, read);
          o.(texts := [content] + o.texts)
  {
  }

  /** Every input has a stopping point. */
  lemma {:induction false} SomeStop(items: seq<Item>, attempts: nat, read: Classifier) returns (n: nat)
    requires attempts > 0
    ensures StopsAt(items, attempts, read, n)
  {
    if items == [] || IsDone(items[0], read) || (items[0].Fault? && attempts == 1) {
      n := 0;
    } else {
      var m := SomeStop(items[1..], if items[0].Fault? then attempts - 1 else attempts, read);
      n := m + 1;
      FaultCountOfRest(items[..n]);
      assert items[..n][1..] == items[1..][..m];
      forall i | 0 <= i < n
        ensures !IsDone(items[i], read)
      {
        if i > 0 { assert items[i] == items[1..][i - 1]; }
      }
      assert n < |items| ==> items[n] == items[1..][m];
    }
  }

  // ---- the loop -----------------------------------------------------------

  class LineStream {
    var items: seq<Item>

    constructor (items: seq<Item>)
      ensures this.items == items
    {
      this.items := items;
    }

    /** An exhausted stream stays exhausted. */
    method Next() returns (item: Option<Item>)
      modifies this
      ensures old(items) == [] ==> item.None? && items == []
      ensures old(items) != [] ==> item == Some(old(items)[0]) && items == old(items)[1..]
    {
      if items == [] { return None; }
      item := Some(items[0]);
      items := items[1..];
    }
  }

  /**
   * Returns whether the caller should take the stream for cut short: neither done nor given up.
   * Waiting between attempts is left out.
   */
  method Drive(lines: LineStream, tx: Channel<Message>, maxAttempts: nat, reader: Reader) returns (unfinished: bool)
    requires tx.Valid()
    modifies lines, tx
    ensures tx.Valid()
    ensures
      var o := Run(old(lines.items), if maxAttempts == 0 then 1 else maxAttempts, Reading(reader));
      && tx.sent == tx.Taken(old(tx.sent) + Messages(o))
      && (unfinished <==>
            || o.ending.Ended?
            || (tx.closesAfter.Some? && tx.closesAfter.value < |old(tx.sent)| + |o.texts|))
      && (tx.closesAfter.None? ==> lines.items == o.rest)
  {
    hide Classify, Run, Messages, Follows, Successes;
    var attempts := if maxAttempts == 0 then 1 else maxAttempts;
    ghost var read := Reading(reader);
    ghost var whole := Run(lines.items, attempts, read);
    ghost var texts := [];
    StartFollows(whole);
    var attempt := 0;
    while true
      invariant 0 <= attempt < attempts && tx.Valid()
      invariant Follows(whole, texts, Run(lines.items, attempts - attempt, read))
      invariant tx.sent == old(tx.sent) + Successes(texts)
      decreases attempts - attempt
    {
      var sawDone, terminated := false, false;
      while true
        invariant tx.Valid()
        invariant Follows(whole, texts, Run(lines.items, attempts - attempt, read))
        invariant tx.sent == old(tx.sent) + Successes(texts)
        invariant !sawDone && !terminated
        decreases |lines.items|
      {
        RunStep(whole, texts, lines.items, attempts - attempt, read);
        FollowsIsPrefix(whole, texts, Run(lines.items, attempts - attempt, read));
        DeliveredSoFar(whole, texts, old(tx.sent));
        var item := lines.Next();
        if item.None? { break; }
        if item.value.Fault? {
          if attempt + 1 < attempts { break; }
          var _ := tx.Send(Failure(item.value.error));
          return false;
        }
        match Classify(item.value.text, reader)
        case Skip =>
        case Done =>
          sawDone, terminated := true, true;
          break;
        case Text(content) =>
          var ok := tx.Send(Success(content));
          if !ok { return true; }
          texts := texts + [content];
      }
      if terminated { return !sawDone; }
      if attempt + 1 < attempts {
        attempt := attempt + 1;
      } else {
        return true;
      }
    }
  }

  function Successes(texts: seq<string>): (r: seq<Message>)
    ensures |r| == |texts|
  {
    seq(|texts|, i requires 0 <= i < |texts| => Success(texts[i]))
  }

  /** The whole run is what has been delivered followed by what is left. */
  ghost predicate Follows(whole: Outcome, texts: seq<string>, left: Outcome) {
    whole == left.(texts := texts + left.texts)
  }

  lemma StartFollows(whole: Outcome)
    ensures Follows(whole, [], whole) && Successes([]) == []
  {}

  lemma FollowsIsPrefix(whole: Outcome, texts: seq<string>, left: Outcome)
    requires Follows(whole, texts, left)
    ensures |texts| <= |whole.texts| && whole.texts[..|texts|] == texts
  {}

  lemma RunStep(whole: Outcome, texts: seq<string>, items: seq<Item>, budget: nat, read: Classifier)
    requires budget > 0 && Follows(whole, texts, Run(items, budget, read))
    ensures items == [] ==> whole == Outcome(texts, Ended, [])
    ensures items == [] && budget > 1 ==> Follows(whole, texts, Run(items, budget - 1, read))
    ensures items != [] && items[0].Fault? && budget > 1 ==> Follows(whole, texts, Run(items[1..], budget - 1, read))
    ensures items != [] && items[0].Fault? && budget == 1 ==>
      whole == Outcome(texts, GaveUp(items[0].error), items[1..])
    ensures items != [] && items[0].Line? ==>
      match read(items[0].text)
      case Skip => Follows(whole, texts, Run(items[1..], budget, read))
      case Done => whole == Outcome(texts, SawDone, items[1..])
      case Text(content) =>
        && Follows(whole, texts + [content], Run(items[1..], budget, read))
        && Successes(texts + [content]) == Successes(texts) + [Success(content)]
        && |whole.texts| > |texts|
  {
    if items != [] && items[0].Line? && read(items[0].text).Text? {
      var content := read(items[0].text).content;
      var left := Run(items[1..], budget, read);
      assert texts + ([content] + left.texts) == (texts + [content]) + left.texts;
    }
  }

  lemma DeliveredSoFar(whole: Outcome, texts: seq<string>, before: seq<Message>)
    requires |texts| <= |whole.texts| && whole.texts[..|texts|] == texts
    ensures
      var all := before + Messages(whole);
      && |all| >= |before| + |texts|
      && all[..|before| + |texts|] == before + Successes(texts)
      && (whole.texts == texts ==>
            all == before + Successes(texts)
                   + if whole.ending.GaveUp? then [Failure(whole.ending.error)] else [])
  {}
}
