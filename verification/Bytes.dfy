/** Byte strings, and the few sequence helpers shared by the streaming modules. */
module Bytes {

  type Byte = b: int | 0 <= b < 256

  type ByteString = seq<Byte>

  datatype Option<+T> = None | Some(value: T)

  function Min(a: int, b: int): int {
    if a <= b then a else b
  }

  function Zeros(n: nat): (r: ByteString)
    ensures |r| == n
    ensures forall i :: 0 <= i < n ==> r[i] == 0
  {
    seq(n, _ => 0)
  }

  /** The byte stream carried by a list of pieces. */
  function Concat(pieces: seq<ByteString>): ByteString {
    if pieces == [] then [] else pieces[0] + Concat(pieces[1..])
  }

  lemma {:induction false} ConcatAppend(a: seq<ByteString>, b: seq<ByteString>)
    ensures Concat(a + b) == Concat(a) + Concat(b)
  {
    if a == [] {
      assert a + b == b;
    } else {
      assert (a + b)[1..] == a[1..] + b;
      ConcatAppend(a[1..], b);
    }
  }

  lemma ConcatSnoc(a: seq<ByteString>, piece: ByteString)
    ensures Concat(a + [piece]) == Concat(a) + piece
  {
    ConcatAppend(a, [piece]);
    assert [piece][1..] == [];
    assert Concat([piece]) == piece + Concat([]);
  }
}
