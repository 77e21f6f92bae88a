/** A binary file opened for reading: its bytes and the current offset, with
    Python's read(n) and relative seek. */
module Streams {
  import opened Common
  import opened Bytes

  datatype Cursor = Cursor(data: seq<byte>, pos: nat)

  /** The offset never runs past the end of the file. */
  type Stream = c: Cursor | c.pos <= |c.data| witness Cursor([], 0)

  function Open(file: seq<byte>): (s: Stream)
    ensures s.data == file && s.pos == 0
  {
    Cursor(file, 0)
  }

  /** Bytes left between the offset and end of file. */
  function Remaining(s: Stream): nat
  {
    |s.data| - s.pos
  }

  /** f.read(n) for the lengths a buffered reader accepts: up to n bytes
      from the offset, or everything left for n == -1; the result is empty
      exactly when n is 0 or the file is exhausted. */
  function Read(s: Stream, n: int): (r: (seq<byte>, Stream))
    requires n >= -1
    ensures r.1.data == s.data
    ensures s.pos <= r.1.pos
    ensures r.0 == s.data[s.pos..r.1.pos]
    ensures n >= 0 ==> r.1.pos == s.pos + Min(n, Remaining(s))
    ensures n == -1 ==> r.1.pos == |s.data|
    ensures |r.0| == 0 <==> n == 0 || Remaining(s) == 0
  {
    var k := if n < 0 || n > Remaining(s) then Remaining(s) else n;
    (s.data[s.pos..s.pos + k], Cursor(s.data, s.pos + k))
  }

  /** f.read(n) for any integer n: a length below -1 raises ValueError. */
  function ReadAny(s: Stream, n: int): (r: Result<(seq<byte>, Stream)>)
    ensures r.Failure? <==> n < -1
    ensures r.Failure? ==> r.error == ValueError
    ensures r.Success? ==> r.value == Read(s, n)
  {
    if n < -1 then Failure(ValueError) else Success(Read(s, n))
  }

  /** f.seek(-k, os.SEEK_CUR): moving before the start of the file raises. */
  function SeekBack(s: Stream, k: nat): (r: Result<Stream>)
    ensures r.Failure? <==> s.pos < k
    ensures r.Failure? ==> r.error == InvalidSeek
    ensures r.Success? ==> r.value.data == s.data && r.value.pos + k == s.pos
  {
    if s.pos < k then Failure(InvalidSeek) else Success(Cursor(s.data, s.pos - k))
  }
}
