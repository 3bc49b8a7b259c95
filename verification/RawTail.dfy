/** The bounded tail of raw terminal output kept for diagnostics. */
module RawTail {
  import opened ByteStrings

  const RAW_TAIL_CAP: nat := 2048

  /** The last n bytes, or all of them. */
  function Last(s: Bytes, n: nat): (r: Bytes)
    ensures |r| <= n
  {
    if |s| <= n then s else s[|s| - n..]
  }

  lemma LastOfLast(a: Bytes, b: Bytes, n: nat)
    ensures Last(Last(a, n) + b, n) == Last(a + b, n)
  {
    if |a| > n {
      var cut := |a| - n;
      var whole := a + b;
      assert whole[cut..] == a[cut..] + b;
      assert whole[cut..][|b|..] == whole[cut + |b|..];
    }
  }

  function Joined(pushes: seq<Bytes>): Bytes {
    if pushes == [] then [] else Joined(pushes[..|pushes| - 1]) + pushes[|pushes| - 1]
  }

  /** One push on values. */
  function Pushed(tail: Bytes, bytes: Bytes): Bytes {
    Last(tail + bytes, RAW_TAIL_CAP)
  }

  class Tail {
    var tail: Bytes

    constructor ()
      ensures tail == []
    {
      tail := [];
    }

    method Push(bytes: Bytes)
      requires |tail| <= RAW_TAIL_CAP
      modifies this
      ensures tail == Pushed(old(tail), bytes)
      ensures |tail| <= RAW_TAIL_CAP
    {
      if |bytes| >= RAW_TAIL_CAP {
        assert (tail + bytes)[|tail| + |bytes| - RAW_TAIL_CAP..] == bytes[|bytes| - RAW_TAIL_CAP..];
        tail := bytes[|bytes| - RAW_TAIL_CAP..];
        return;
      }
      ghost var was, k := tail, 0;
      while |tail| + |bytes| > RAW_TAIL_CAP
        invariant k <= |was| && tail == was[k..]
        invariant k == 0 || |tail| + |bytes| >= RAW_TAIL_CAP
      {
        assert was[k..][1..] == was[k + 1..];
        tail, k := tail[1..], k + 1;
      }
      CutIsPushed(was, bytes, k);
      tail := tail + bytes;
    }
  }

  lemma CutIsPushed(tail: Bytes, bytes: Bytes, k: nat)
    requires k <= |tail| && |tail| - k + |bytes| <= RAW_TAIL_CAP
    requires k == 0 || |tail| - k + |bytes| == RAW_TAIL_CAP
    ensures Pushed(tail, bytes) == tail[k..] + bytes
  {
  }

  function AllPushed(pushes: seq<Bytes>): Bytes {
    if pushes == [] then [] else Pushed(AllPushed(pushes[..|pushes| - 1]), pushes[|pushes| - 1])
  }

  /** However the output was cut into pushes, the tail is the last bytes of the whole. */
  lemma {:induction false} TailIsEndOfStream(pushes: seq<Bytes>)
    ensures AllPushed(pushes) == Last(Joined(pushes), RAW_TAIL_CAP)
  {
    if pushes != [] {
      TailIsEndOfStream(pushes[..|pushes| - 1]);
      LastOfLast(Joined(pushes[..|pushes| - 1]), pushes[|pushes| - 1], RAW_TAIL_CAP);
    }
  }
}
