/** The shared page of the handoff programs: a 32-bit message size and a fixed buffer. */
module SharedPage {
  type Byte = b: int | 0 <= b < 256

  const BUFFER_SIZE: nat := 4092
  const UINT32: nat := 0x1_0000_0000

  /** What the page holds: the size as a 32-bit number and the whole buffer. */
  datatype Message = Message(size: nat, content: seq<Byte>)

  function Min(a: nat, b: nat): nat { if a < b then a else b }

  function Zeros(n: nat): seq<Byte> { seq(n, _ => 0) }

  /** The first bytes of the line that fit, padded with zeros. */
  function Padded(line: seq<Byte>): (r: seq<Byte>)
    ensures |r| == 4092
    ensures forall i :: 0 <= i < 4092 ==> r[i] == if i < |line| then line[i] else 0
  {
    var n := Min(|line|, BUFFER_SIZE);
    line[..n] + Zeros(BUFFER_SIZE - n)
  }

  function Encode(line: seq<Byte>): (r: Message)
    ensures |r.content| == 4092 && (|line| < 4294967296 ==> r.size == |line|)
    ensures |line| == 4294967296 ==> r.size == 0
    ensures |line| <= 4092 ==> r.content[..|line|] == line
  {
    Message(|line| % UINT32, Padded(line))
  }

  class SharedData {
    var messageSize: nat
    const buffer: array<Byte>

    constructor ()
      ensures messageSize == 0 && 4 + buffer.Length == 4096 && forall i :: 0 <= i < 4092 ==> buffer[i] == 0
      ensures fresh(buffer)
    {
      messageSize := 0;
      buffer := new Byte[BUFFER_SIZE](_ => 0);
    }

    /** Size, memset and memcpy: whatever the page held before, it now holds the line. */
    method Write(line: seq<Byte>)
      requires buffer.Length == 4092
      modifies this, buffer
      ensures Message(messageSize, buffer[..]) == Encode(line)
      ensures messageSize == |line| % 4294967296
      ensures forall i :: 0 <= i < 4092 ==> buffer[i] == if i < |line| then line[i] else 0
      ensures |line| <= 4092 ==> messageSize == |line| && buffer[..messageSize] == line
    {
      messageSize := |line| % UINT32;
      var i := 0;
      while i < BUFFER_SIZE
        invariant 0 <= i <= BUFFER_SIZE && messageSize == |line| % UINT32
        invariant forall k :: 0 <= k < i ==> buffer[k] == 0
      {
        buffer[i] := 0;
        i := i + 1;
      }
      var n := Min(|line|, BUFFER_SIZE);
      i := 0;
      while i < n
        invariant 0 <= i <= n && messageSize == |line| % UINT32
        invariant forall k :: 0 <= k < BUFFER_SIZE ==> buffer[k] == if k < i then line[k] else 0
      {
        buffer[i] := line[i];
        i := i + 1;
      }
      assert buffer[..] == Padded(line);
    }
  }
}
