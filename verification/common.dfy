/** Small shared vocabulary: optional values, results, and the exceptions the
    decoders can raise. */
module Common {

  datatype Option<+T> = None | Some(value: T)

  /** The outcome of an operation that may raise one of the decoders' exceptions. */
  datatype Result<+T> = Success(value: T) | Failure(error: Failure)

  /** The Python exceptions a decoder can end with. */
  datatype Failure =
    | UnicodeDecodeError   // the header bytes are not valid UTF-8
    | InvalidSeek          // f.seek(-k, SEEK_CUR) would move before byte 0 (OSError)
    | IndexError           // a row is indexed past its end
    | ZeroDivisionError    // the sample-rate estimate divides by a zero time step
    | AttributeError       // a module attribute that does not exist (csv.write)
    | ValueError           // f.read(n) with n below -1

  function Min(a: int, b: int): int
  {
    if a <= b then a else b
  }

  /** Sum of a sequence of naturals, left to right. */
  function Sum(xs: seq<nat>): nat
  {
    if |xs| == 0 then 0 else xs[0] + Sum(xs[1..])
  }

  lemma {:induction false} SumAppend(xs: seq<nat>, x: nat)
    ensures Sum(xs + [x]) == Sum(xs) + x
  {
    if |xs| == 0 {
      assert xs + [x] == [x];
    } else {
      assert (xs + [x])[1..] == xs[1..] + [x];
      SumAppend(xs[1..], x);
    }
  }
}
