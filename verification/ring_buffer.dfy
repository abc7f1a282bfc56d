/** A bounded FIFO store with the semantics of Python's
    `collections.deque(maxlen=...)`: appending to a full deque silently
    discards the element at the opposite (oldest) end. */
module RingBuffer {

  /** The newest `maxlen` elements of `s`, in order (all of `s` when shorter). */
  function Newest<T>(s: seq<T>, maxlen: nat): (r: seq<T>)
    ensures |r| <= maxlen && |r| <= |s|
  {
    if |s| <= maxlen then s else s[|s| - maxlen..]
  }

  /** `deque.append(v)` on a deque bounded by `maxlen`. */
  function Append<T>(buf: seq<T>, maxlen: nat, v: T): (r: seq<T>)
    requires |buf| <= maxlen
    ensures |r| <= maxlen
    ensures maxlen > 0 ==> |r| > 0 && r[|r| - 1] == v
    ensures |buf| < maxlen ==> r == buf + [v]
    ensures 0 < maxlen == |buf| ==> |r| == |buf| && r[..|r| - 1] == buf[1..]
  {
    if |buf| < maxlen then buf + [v]
    else if maxlen == 0 then []
    else buf[1..] + [v]
  }

  /** One append keeps exactly the newest `maxlen` elements of the history. */
  lemma AppendKeepsNewest<T>(buf: seq<T>, maxlen: nat, v: T)
    requires |buf| <= maxlen
    ensures Append(buf, maxlen, v) == Newest(buf + [v], maxlen)
  {
    if |buf| == maxlen && maxlen > 0 {
      assert (buf + [v])[|buf| + 1 - maxlen..] == buf[1..] + [v];
    }
  }

  /** Keeping the newest of a history, then of that plus more, is keeping
      the newest of the whole history. */
  lemma NewestCompose<T>(z0: seq<T>, e: seq<T>, more: seq<T>, z1: seq<T>, maxlen: nat)
    requires z1 == Newest(z0 + e, maxlen)
    ensures Newest(z1 + more, maxlen) == Newest(z0 + (e + more), maxlen)
  {
    NewestOfNewest(z0 + e, more, maxlen);
    assert z0 + e + more == z0 + (e + more);
  }

  /** Appending the elements of `vs` one at a time, oldest first. */
  function AppendAll<T>(buf: seq<T>, maxlen: nat, vs: seq<T>): (r: seq<T>)
    requires |buf| <= maxlen
    ensures |r| <= maxlen
    decreases |vs|
  {
    if |vs| == 0 then buf else AppendAll(Append(buf, maxlen, vs[0]), maxlen, vs[1..])
  }

  lemma NewestOfNewest<T>(a: seq<T>, b: seq<T>, maxlen: nat)
    ensures Newest(Newest(a, maxlen) + b, maxlen) == Newest(a + b, maxlen)
  {
    var na := Newest(a, maxlen);
    if |a| > maxlen {
      var x := na + b;
      var y := a + b;
      assert x == y[|a| - maxlen..];
      if |x| > maxlen {
        assert x[|x| - maxlen..] == y[|y| - maxlen..];
      } else {
        assert |y| > maxlen;
        assert |x| == maxlen + |b|;
        assert |b| == 0;
      }
    }
  }

  /** FIFO: after any run of appends the deque holds exactly the newest
      `maxlen` elements of everything appended, oldest evicted first. */
  lemma {:induction false} AppendAllKeepsNewest<T>(buf: seq<T>, maxlen: nat, vs: seq<T>)
    requires |buf| <= maxlen
    ensures AppendAll(buf, maxlen, vs) == Newest(buf + vs, maxlen)
    decreases |vs|
  {
    if |vs| == 0 {
      assert buf + vs == buf;
    } else {
      var b1 := Append(buf, maxlen, vs[0]);
      AppendAllKeepsNewest(b1, maxlen, vs[1..]);
      AppendKeepsNewest(buf, maxlen, vs[0]);
      NewestOfNewest(buf + [vs[0]], vs[1..], maxlen);
      assert buf + [vs[0]] + vs[1..] == buf + vs;
    }
  }
}
