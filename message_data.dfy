/** The per-format instance list (the C struct MessageData and
    addMessageData): parallel buffers of recorded offsets and payloads whose
    capacity doubles when they are full. The parser keeps one such struct per
    format-table entry, by value, in an array; a struct is changed in place by
    storing its updated value back into its slot. */
module MessageBuffer {
  import opened Framing

  /** The capacity every list starts with. */
  const InitialCapacity: nat := 1000

  /** struct MessageData. `hasBuffers` stands for the buffer pointers being
      non-NULL. Each buffer is a sequence of `capacity` slots of which the
      first `count` are filled. */
  datatype MessageData = MessageData(
    msgId: byte,
    msgLength: byte,
    hasBuffers: bool,
    indices: seq<nat>,
    data: seq<seq<byte>>,
    count: nat,
    capacity: nat)
  {
    /** An allocated list has `capacity` slots in both buffers, at least one,
        and its filled prefix fits in them; an unallocated one is all zero. */
    predicate Valid()
    {
      if hasBuffers then
        |indices| == capacity && |data| == capacity && 0 < capacity && count <= capacity
      else
        indices == [] && data == [] && count == 0 && capacity == 0
    }

    /** The recorded offsets, oldest first. */
    function Offsets(): seq<nat>
      requires Valid()
    {
      indices[..count]
    }

    /** The recorded payloads, parallel to Offsets(). */
    function Payloads(): seq<seq<byte>>
      requires Valid()
    {
      data[..count]
    }
  }

  /** Two lists agree on allocation, type and record length. */
  predicate SameHeader(a: MessageData, b: MessageData)
  {
    a.hasBuffers == b.hasBuffers && a.msgId == b.msgId && a.msgLength == b.msgLength
  }

  /** A slot the setup loop has not touched: the zero bytes the parser's
      memset leaves behind. */
  const Unused: MessageData := MessageData(0, 0, false, [], [], 0, 0)

  /** The list the setup loop gives a selected format: allocated, empty, with
      the initial capacity and the format's type and record length. */
  function NewList(msgId: byte, msgLength: byte): (m: MessageData)
    ensures m.Valid() && m.hasBuffers
    ensures m.msgId == msgId && m.msgLength == msgLength
    ensures m.capacity == InitialCapacity
    ensures m.Offsets() == [] && m.Payloads() == []
  {
    MessageData(msgId, msgLength, true, seq(InitialCapacity, _ => 0), seq(InitialCapacity, _ => []), 0, InitialCapacity)
  }

  /** addMessageData: the list after (index, payload) is stored in its first
      free slot, both buffers having first been doubled if every slot was
      taken. Earlier entries, the type and the length stay as they were. */
  function Added(m: MessageData, index: nat, payload: seq<byte>): (r: MessageData)
    requires m.Valid() && m.hasBuffers
    ensures r.Valid() && r.hasBuffers
    ensures r.msgId == m.msgId && r.msgLength == m.msgLength
    ensures r.count == m.count + 1
    ensures m.count < m.capacity ==> r.capacity == m.capacity
    ensures m.count == m.capacity ==> r.capacity == 2 * m.capacity
    ensures r.Offsets() == m.Offsets() + [index]
    ensures r.Payloads() == m.Payloads() + [payload]
  {
    var g :=
      if m.count >= m.capacity then
        m.(indices := m.indices + seq(m.capacity, _ => 0),
           data := m.data + seq(m.capacity, _ => []),
           capacity := 2 * m.capacity)
      else m;
    assert g.indices[..g.count] == m.Offsets() && g.data[..g.count] == m.Payloads();
    g.(indices := g.indices[g.count := index], data := g.data[g.count := payload], count := g.count + 1)
  }
}
