/** Bytes that arrive in chunks over something that can break. */
module Streams {
  import opened Encoding
  import opened Digests

  datatype Item = Chunk(bytes: Bytes) | Broken

  /** All the bytes of a stream that does not break. */
  function Delivered(items: seq<Item>): Option<Bytes> {
    if items == [] then Some([])
    else
      match (Delivered(items[..|items| - 1]), items[|items| - 1])
      case (Some(before), Chunk(bytes)) => Some(before + bytes)
      case _ => None
  }

  lemma DeliveredNone()
    ensures Delivered([]) == Some([])
  {
  }

  lemma DeliveredNext(items: seq<Item>, i: nat)
    requires i < |items|
    ensures Delivered(items[..i + 1]) ==
            match (Delivered(items[..i]), items[i])
            case (Some(before), Chunk(bytes)) => Some(before + bytes)
            case _ => None
  {
    assert items[..i + 1][..i] == items[..i];
  }

  /** A stream that does not break has not broken earlier, nor delivered more. */
  lemma {:induction false} DeliveredEarlier(items: seq<Item>, n: nat)
    requires n <= |items| && Delivered(items).Some?
    ensures Delivered(items[..n]).Some? && |Delivered(items[..n]).value| <= |Delivered(items).value|
    decreases |items|
  {
    if n == |items| {
      assert items[..n] == items;
    } else {
      DeliveredEarlier(items[..|items| - 1], n);
      assert items[..|items| - 1][..n] == items[..n];
    }
  }

  lemma {:induction false} DeliveredUnlessBroken(items: seq<Item>)
    ensures Delivered(items).Some? <==> forall i | 0 <= i < |items| :: items[i].Chunk?
  {
    if items != [] {
      DeliveredUnlessBroken(items[..|items| - 1]);
    }
  }
}
