/** Byte strings. */
module Bytes {
  type byte = x: int | 0 <= x < 256

  function Concat(pieces: seq<seq<byte>>): seq<byte>
  {
    if pieces == [] then [] else Concat(pieces[..|pieces| - 1]) + pieces[|pieces| - 1]
  }

  lemma {:induction false} ConcatSplit(pieces: seq<seq<byte>>, i: nat)
    requires i < |pieces|
    ensures Concat(pieces[..i]) + pieces[i] + Concat(pieces[i + 1..]) == Concat(pieces)
  {
    var last := |pieces| - 1;
    if i == last {
      assert pieces[i + 1..] == [];
    } else {
      ConcatSplit(pieces[..last], i);
      assert pieces[..last][..i] == pieces[..i] && pieces[..last][i + 1..] == pieces[i + 1..][..last - i - 1];
    }
  }
}
