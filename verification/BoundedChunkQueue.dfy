/** The bounded payload queue between a transfer and its channel. */
module ChunkQueue {
  datatype PutOutcome = Queued | TooLarge | QueueClosed | WouldBlock
  datatype GetOutcome<T> = Got(item: T) | Nothing | Ended

  function Total<T>(items: seq<(T, nat)>): nat {
    if items == [] then 0 else items[0].1 + Total(items[1..])
  }

  lemma {:induction false} TotalAppend<T>(items: seq<(T, nat)>, x: (T, nat))
    ensures Total(items + [x]) == Total(items) + x.1
  {
    if items != [] {
      assert (items + [x])[1..] == items[1..] + [x];
      TotalAppend(items[1..], x);
    }
  }

  /** `accepted` and `taken` record every item ever queued and ever handed out, in order. */
  class BoundedChunkQueue<T(!new)> {
    const maxChunks: nat
    const maxBytes: nat
    const size: T -> nat
    var items: seq<(T, nat)>
    var bytes: nat
    var highChunks: nat
    var highBytes: nat
    var closed: bool
    ghost var accepted: seq<T>
    ghost var taken: seq<T>
    ghost var dropped: nat

    ghost function Held(): seq<T>
      reads this
    {
      seq(|items|, i requires 0 <= i < |items| reads this => items[i].0)
    }

    /** What was handed out is a prefix of what was queued, and what is held follows it at once: nothing
        is lost, doubled or reordered until the queue is closed with its contents discarded. */
    ghost predicate Valid()
      reads this
    {
      && maxChunks > 0 && maxBytes > 0
      && bytes == Total(items) <= highBytes <= maxBytes && |items| <= highChunks <= maxChunks
      && (forall i :: 0 <= i < |items| ==> items[i].1 == size(items[i].0))
      && (dropped > 0 ==> closed && items == [])
      && |taken| + |items| + dropped == |accepted|
      && accepted[..|taken|] == taken
      && (dropped == 0 ==> accepted == taken + Held())
    }

    constructor (maxChunks: nat, maxBytes: nat, size: T -> nat)
      requires maxChunks > 0 && maxBytes > 0
      ensures Valid() && accepted == taken == [] && !closed
      ensures this.maxChunks == maxChunks && this.maxBytes == maxBytes && this.size == size
    {
      this.maxChunks, this.maxBytes, this.size := maxChunks, maxBytes, size;
      items, bytes, highChunks, highBytes, closed := [], 0, 0, 0, false;
      accepted, taken, dropped := [], [], 0;
    }

    method Put(item: T) returns (r: PutOutcome)
      requires Valid()
      modifies this
      ensures Valid() && taken == old(taken) && closed == old(closed)
      ensures r == TooLarge <==> size(item) > maxBytes
      ensures r == QueueClosed <==> size(item) <= maxBytes && closed
      ensures r == WouldBlock <==>
        (size(item) <= maxBytes && !closed && (old(|items|) >= maxChunks || old(bytes) + size(item) > maxBytes))
      ensures accepted == if r == Queued then old(accepted) + [item] else old(accepted)
      ensures Held() == if r == Queued then old(Held()) + [item] else old(Held())
    {
      var n := size(item);
      if n > maxBytes {
        return TooLarge;
      }
      if |items| >= maxChunks || bytes + n > maxBytes {
        return if closed then QueueClosed else WouldBlock;
      }
      if closed {
        return QueueClosed;
      }
      TotalAppend(items, (item, n));
      ghost var held := Held();
      items := items + [(item, n)];
      bytes := bytes + n;
      highChunks := if |items| > highChunks then |items| else highChunks;
      highBytes := if bytes > highBytes then bytes else highBytes;
      accepted := accepted + [item];
      assert Held() == held + [item];
      return Queued;
    }

    method Get() returns (r: GetOutcome<T>)
      requires Valid()
      modifies this
      ensures Valid() && accepted == old(accepted) && closed == old(closed)
      ensures r.Got? <==> old(Held()) != []
      ensures r.Ended? <==> old(Held()) == [] && closed
      ensures r.Got? ==> r.item == old(Held())[0] && Held() == old(Held())[1..] && taken == old(taken) + [r.item]
      ensures !r.Got? ==> Held() == old(Held()) && taken == old(taken)
    {
      if items == [] {
        return if closed then Ended else Nothing;
      }
      var (item, n) := items[0];
      ghost var held := Held();
      assert held[0] == item;
      items := items[1..];
      bytes := bytes - n;
      taken := taken + [item];
      assert Held() == held[1..];
      return Got(item);
    }

    /** After a discarding close no consumer gets another item. */
    method Close(discard: bool)
      requires Valid()
      modifies this
      ensures Valid() && closed && accepted == old(accepted) && taken == old(taken)
      ensures Held() == if !old(closed) && discard then [] else old(Held())
    {
      if closed {
        return;
      }
      closed := true;
      if discard {
        dropped := |items|;
        items, bytes := [], 0;
      }
    }
  }
}
