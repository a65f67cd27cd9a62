/** A message carries its id in the last four bytes of a few extra elements; two receivers find it differently. */
module Framing {
  import opened Division

  const ID_BYTES := 4

  type byte = x: int | 0 <= x < 256

  /** The number of extra elements the sender appends. */
  function Extra(size: int): (r: int)
    requires size >= 1
    ensures r >= 1
  {
    if size >= ID_BYTES then 1
    else if ID_BYTES % size == 0 then ID_BYTES / size
    else ID_BYTES / size + 1
  }

  /** The extra elements hold the id with less than one element to spare. */
  lemma ExtraIsLeast(size: int)
    requires size >= 1
    ensures ID_BYTES <= Extra(size) * size < ID_BYTES + size
  {
    if size < ID_BYTES { assert size == 1 || size == 2 || size == 3; }
  }

  function Length(count: int, size: int): (n: int)
    requires count >= 0 && size >= 1
    ensures n >= 0
  {
    assert (count + Extra(size)) * size >= 0;
    (count + Extra(size)) * size
  }

  /** Where the sender writes the id. */
  function IdOffset(count: int, size: int): int
    requires count >= 0 && size >= 1
  {
    Length(count, size) - ID_BYTES
  }

  lemma LengthIs(count: int, size: int)
    requires count >= 0 && size >= 1
    ensures Length(count, size) == size * count + Extra(size) * size
    ensures count * size <= IdOffset(count, size) < count * size + size
  {
    ExtraIsLeast(size);
    assert (count + Extra(size)) * size == count * size + Extra(size) * size;
  }

  /** Dividing the length by the element size gives back the count the sender passed, with the extra elements. */
  lemma ElementsIn(count: int, size: int)
    requires count >= 0 && size >= 1
    ensures Length(count, size) / size == count + Extra(size)
    ensures IdOffset(count, size) / size == count
  {
    LengthIs(count, size);
    Unique(Length(count, size), size, count + Extra(size), 0);
    Unique(IdOffset(count, size), size, count, Extra(size) * size - ID_BYTES);
  }

  /** The sender's buffer, fill being what the allocation left between payload and id. */
  function Frame(payload: seq<byte>, count: int, size: int, id: seq<byte>, fill: seq<byte>): (buf: seq<byte>)
    requires count >= 0 && size >= 1 && |payload| == count * size && |id| == ID_BYTES
    requires |payload| + |fill| == IdOffset(count, size)
    ensures |buf| == Length(count, size)
  {
    payload + fill + id
  }

  datatype Received = Received(payload: seq<byte>, count: int, id: seq<byte>)

  /** The receiver that posted the element type: the element count includes the extra elements. */
  function TypedReceive(buf: seq<byte>, size: int): Received
    requires size >= 1 && |buf| / size >= Extra(size)
  {
    Divide(|buf|, size);
    var count := |buf| / size - Extra(size);
    LengthIs(count, size);
    Received(buf[..count * size], count, buf[Length(count, size) - ID_BYTES..][..ID_BYTES])
  }

  /** The receiver that drained bytes first: an element is one byte there, and the type is applied later. */
  function DrainedReceive(buf: seq<byte>, size: int): Received
    requires size >= 1 && |buf| >= ID_BYTES
  {
    var bytes := |buf| - Extra(1);
    Divide(bytes, size);
    var count := bytes / size;
    assert count * size <= bytes;
    Received(buf[..count * size], count, buf[bytes..][..ID_BYTES])
  }

  /** Whatever was sent, both receivers find its payload, its count and its id. */
  lemma BothReceiveWhatWasSent(payload: seq<byte>, count: int, size: int, id: seq<byte>, fill: seq<byte>)
    requires count >= 0 && size >= 1 && |payload| == count * size && |id| == ID_BYTES
    requires |payload| + |fill| == IdOffset(count, size)
    ensures var buf := Frame(payload, count, size, id, fill);
      && |buf| / size >= Extra(size) && |buf| >= ID_BYTES
      && TypedReceive(buf, size) == Received(payload, count, id)
      && DrainedReceive(buf, size) == Received(payload, count, id)
  {
    hide Length, Extra;
    var buf := Frame(payload, count, size, id, fill);
    ElementsIn(count, size);
    ExtraIsLeast(1);
    assert buf[..count * size] == payload;
    assert buf[|payload| + |fill|..] == id && id[..ID_BYTES] == id;
  }

  /** No buffer of another length would let both receivers agree on where the id lies. */
  lemma AgreeOnlyOnWholeElements(buf: seq<byte>, size: int)
    requires size >= 1 && |buf| / size >= Extra(size)
    ensures IdOffset(|buf| / size - Extra(size), size) == |buf| - Extra(1) <==> |buf| % size == 0
  {
    Divide(|buf|, size);
    assert (|buf| / size) * size == size * (|buf| / size);
  }
}
