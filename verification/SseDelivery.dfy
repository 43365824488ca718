/**
 Framing and consuming together (crates/vlorql-llm/src/sse.rs): the consumer polls the lines
 that `sse_lines` makes of a byte stream. How bytes decode to text is left open.
 */
module SseDelivery {
  import opened Prelude
  import Lines = SseLines
  import Consumer = SseConsumer

  type Decoder = Lines.Line -> string

  /** The consumer's view of the framed items. */
  function Decoded(items: seq<Lines.Item>, decode: Decoder): seq<Consumer.Item> {
    seq(|items|, i requires 0 <= i < |items| =>
      match items[i]
      case Read(line) => Consumer.Line(decode(line))
      case Failed(error) => Consumer.Fault(error))
  }

  /** The messages sent for a byte stream polled from its start. */
  function Delivered(
    byteStream: seq<Lines.Polled>, decode: Decoder, attempts: nat, read: Consumer.Classifier): seq<Consumer.Message>
    requires attempts > 0
  {
    Consumer.Messages(Consumer.Run(Decoded(Lines.Framed([], byteStream), decode), attempts, read))
  }

  /** Two byte streams with the same bytes and no faults deliver the same, however they are cut. */
  lemma CutsDoNotMatter(
    a: seq<Lines.Polled>, b: seq<Lines.Polled>, decode: Decoder, attempts: nat, read: Consumer.Classifier)
    requires attempts > 0
    requires Lines.Faults(a) == [] && Lines.Faults(b) == [] && Lines.Bytes(a) == Lines.Bytes(b)
    ensures Delivered(a, decode, attempts, read) == Delivered(b, decode, attempts, read)
  {
    hide Lines.Framed, Lines.Split, Consumer.Run, Consumer.Messages, Decoded;
    Lines.FaultFreeFramed([], a);
    Lines.FaultFreeFramed([], b);
  }

  /** They deliver the texts of the lines of the whole input up to the done marker, and no error. */
  lemma {:induction false} FaultFreeDelivery(
    byteStream: seq<Lines.Polled>, decode: Decoder, attempts: nat, read: Consumer.Classifier, n: nat)
    requires attempts > 0 && Lines.Faults(byteStream) == []
    requires Consumer.StopsAt(Decoded(Lines.Reads(Lines.Split(Lines.Bytes(byteStream))), decode), attempts, read, n)
    ensures
      var lines := Decoded(Lines.Reads(Lines.Split(Lines.Bytes(byteStream))), decode);
      Delivered(byteStream, decode, attempts, read) == Consumer.Successes(Consumer.Texts(lines[..n], read))
  {
    hide Lines.Framed, Lines.Split, Consumer.Run, Consumer.Texts;
    Lines.FaultFreeFramed([], byteStream);
    assert [] + Lines.Bytes(byteStream) == Lines.Bytes(byteStream);
    var lines := Decoded(Lines.Reads(Lines.Split(Lines.Bytes(byteStream))), decode);
    Consumer.RunStops(lines, attempts, read, n);
    assert n < |lines| ==> lines[n].Line?;
  }
}
