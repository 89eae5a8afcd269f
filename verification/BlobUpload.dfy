/**
 The body of a single blob upload, written to the spool and fed to the hasher
 chunk by chunk. The body can break off, and the disk can refuse a write.
 */
module BlobUpload {
  import opened Encoding
  import opened Digests
  import opened Sequences
  import opened Streams

  datatype Received =
    | Verified(bytes: Bytes)
    | DeclaredTooLarge
    | BodyTooLarge
    | BodyBroken
    | WriteFailed
    | ContentMismatch

  /** What was fed to the hasher, what was written, and why reading stopped early if it did. */
  datatype Progress = Progress(fed: Bytes, writes: seq<nat>, stop: Option<Received>)

  /** One more item; the size is tested before anything is written. */
  function Take(maxBlobBytes: U64, size: U64, p: Progress, item: Item, written: bool): Progress {
    if p.stop.Some? then p
    else
      match item
      case Broken => p.(stop := Some(BodyBroken))
      case Chunk(bytes) =>
        var more := |p.fed| + |bytes|;
        if more >= U64_LIMIT || more > size || more > maxBlobBytes then p.(stop := Some(BodyTooLarge))
        else Progress(p.fed + bytes, p.writes + [|bytes|], if written then None else Some(WriteFailed))
  }

  /** The whole body; `disk` says which writes succeed. */
  function TakeAll(maxBlobBytes: U64, size: U64, items: seq<Item>, disk: nat -> bool): Progress {
    if items == [] then Progress([], [], None)
    else
      var last := |items| - 1;
      Take(maxBlobBytes, size, TakeAll(maxBlobBytes, size, items[..last], disk), items[last], disk(last))
  }

  function Receive(hasher: Hasher, maxBlobBytes: U64, digest: Digest, items: seq<Item>, disk: nat -> bool, flushed: bool)
    : (Received, seq<nat>)
  {
    if digest.size > maxBlobBytes then (DeclaredTooLarge, [])
    else
      var p := TakeAll(maxBlobBytes, digest.size, items, disk);
      (if p.stop.Some? then p.stop.value
       else if !flushed then WriteFailed
       else if Matches(hasher, digest, p.fed) then Verified(p.fed)
       else ContentMismatch, p.writes)
  }

  /** What a place in the body can stop at. */
  ghost predicate StopsAt(items: seq<Item>, size: U64, disk: nat -> bool, stop: Received, n: nat) {
    && n < |items| && Delivered(items[..n]).Some?
    && match stop
       case BodyBroken => items[n].Broken?
       case BodyTooLarge => Delivered(items[..n + 1]).Some? && |Delivered(items[..n + 1]).value| > size
       case WriteFailed => !disk(n)
       case _ => false
  }

  /** Reading goes on while nothing breaks, fails or grows too large, and stops at the first place where something does. */
  ghost predicate Follows(items: seq<Item>, size: U64, disk: nat -> bool, p: Progress) {
    && Total(p.writes) == |p.fed| <= size
    && match p.stop
       case None => Delivered(items) == Some(p.fed) && forall i | 0 <= i < |items| :: disk(i)
       case Some(stop) => exists n: nat :: StopsAt(items, size, disk, stop, n)
  }

  lemma TakeFollows(maxBlobBytes: U64, items: seq<Item>, i: nat, size: U64, disk: nat -> bool, p: Progress)
    requires i < |items| && size <= maxBlobBytes && Follows(items[..i], size, disk, p)
    ensures Follows(items[..i + 1], size, disk, Take(maxBlobBytes, size, p, items[i], disk(i)))
  {
    hide Delivered;
    DeliveredNext(items, i);
    var longer := items[..i + 1];
    assert longer[..i] == items[..i] && longer[..i + 1] == longer;
    if p.stop.Some? {
      var n: nat :| StopsAt(items[..i], size, disk, p.stop.value, n);
      assert longer[..n] == items[..i][..n] && longer[..n + 1] == items[..i][..n + 1];
      assert StopsAt(longer, size, disk, p.stop.value, n);
    } else {
      var q := Take(maxBlobBytes, size, p, items[i], disk(i));
      if items[i].Chunk? {
        TotalSnoc(p.writes, |items[i].bytes|);
      }
      if q.stop.Some? {
        assert StopsAt(longer, size, disk, q.stop.value, i);
      }
    }
  }

  lemma {:induction false} TakeAllFollows(maxBlobBytes: U64, items: seq<Item>, size: U64, disk: nat -> bool)
    requires size <= maxBlobBytes
    ensures Follows(items, size, disk, TakeAll(maxBlobBytes, size, items, disk))
  {
    if items != [] {
      hide Take;
      hide Follows;
      var last := |items| - 1;
      TakeAllFollows(maxBlobBytes, items[..last], size, disk);
      TakeFollows(maxBlobBytes, items, last, size, disk, TakeAll(maxBlobBytes, size, items[..last], disk));
      assert items[..last + 1] == items;
    }
  }

  /**
   A body is taken exactly when it arrives whole, is what its digest declares and
   every write succeeds, however it is cut; any other answer names what really
   happened at its first occurrence; and what is written never adds up to more
   than was declared.
   */
  lemma ReceiveIsRight(
    hasher: Hasher, maxBlobBytes: U64, digest: Digest, items: seq<Item>, disk: nat -> bool, flushed: bool)
    ensures var (r, writes) := Receive(hasher, maxBlobBytes, digest, items, disk, flushed);
            && Total(writes) <= digest.size
            && (r.Verified? <==>
                  && digest.size <= maxBlobBytes
                  && Delivered(items).Some? && Matches(hasher, digest, Delivered(items).value)
                  && (forall i | 0 <= i < |items| :: disk(i)) && flushed)
            && match r
               case Verified(bytes) => Delivered(items) == Some(bytes) && Total(writes) == digest.size
               case DeclaredTooLarge => digest.size > maxBlobBytes
               case ContentMismatch =>
                 && Delivered(items).Some? && |Delivered(items).value| <= digest.size
                 && !Matches(hasher, digest, Delivered(items).value)
               case stop => (stop.WriteFailed? && !flushed) || exists n: nat :: StopsAt(items, digest.size, disk, stop, n)
  {
    if digest.size <= maxBlobBytes {
      TakeAllFollows(maxBlobBytes, items, digest.size, disk);
      hide TakeAll;
      hide Delivered;
      var p := TakeAll(maxBlobBytes, digest.size, items, disk);
      if p.stop.Some? {
        var n: nat :| StopsAt(items, digest.size, disk, p.stop.value, n);
        StoppedIsNotTaken(hasher, digest, items, disk, p.stop.value, n);
      }
    }
  }

  /** A body with such a place is not taken. */
  lemma StoppedIsNotTaken(hasher: Hasher, digest: Digest, items: seq<Item>, disk: nat -> bool, stop: Received, n: nat)
    requires StopsAt(items, digest.size, disk, stop, n)
    ensures !(Delivered(items).Some? && Matches(hasher, digest, Delivered(items).value)
              && forall i | 0 <= i < |items| :: disk(i))
  {
    DeliveredUnlessBroken(items);
    if Delivered(items).Some? {
      DeliveredEarlier(items, n + 1);
    }
  }

  /** Once reading has stopped, the rest of the body changes nothing. */
  lemma {:induction false} StoppedStays(maxBlobBytes: U64, size: U64, items: seq<Item>, n: nat, disk: nat -> bool)
    requires n <= |items|
    ensures var p := TakeAll(maxBlobBytes, size, items[..n], disk);
            p.stop.Some? ==> TakeAll(maxBlobBytes, size, items, disk) == p
    decreases |items|
  {
    if n == |items| {
      assert items[..n] == items;
    } else {
      StoppedStays(maxBlobBytes, size, items[..|items| - 1], n, disk);
      assert items[..|items| - 1][..n] == items[..n];
    }
  }

  /** The upload's own loop. */
  method ReceiveBlob(
    hasher: Hasher, maxBlobBytes: U64, digest: Digest, items: seq<Item>, disk: nat -> bool, flushed: bool)
    returns (r: Received, writes: seq<nat>)
    ensures (r, writes) == Receive(hasher, maxBlobBytes, digest, items, disk, flushed)
  {
    writes := [];
    if digest.size > maxBlobBytes {
      return DeclaredTooLarge, [];
    }
    var size, fed: Bytes := 0, [];
    for i := 0 to |items|
      invariant size == |fed| && TakeAll(maxBlobBytes, digest.size, items[..i], disk) == Progress(fed, writes, None)
    {
      assert items[..i + 1][..i] == items[..i];
      StoppedStays(maxBlobBytes, digest.size, items, i + 1, disk);
      match items[i] {
        case Broken => return BodyBroken, writes;
        case Chunk(bytes) =>
          size := size + |bytes|;
          if size >= U64_LIMIT || size > digest.size || size > maxBlobBytes {
            return BodyTooLarge, writes;
          }
          fed := fed + bytes;
          writes := writes + [|bytes|];
          if !disk(i) {
            return WriteFailed, writes;
          }
      }
    }
    assert items[..|items|] == items;
    if !flushed {
      return WriteFailed, writes;
    }
    if size != digest.size || hasher(digest.algorithm, fed) != digest.hash {
      return ContentMismatch, writes;
    }
    return Verified(fed), writes;
  }
}
