/** The bounded rolling price history fed by the price stream: every tick is
    appended, and once the buffer would exceed its capacity the oldest point
    is evicted (App.tsx:52-58).
 */
module PriceHistory {
  import opened Types

  /** Largest number of points the history keeps. */
  const Capacity: nat := 150

  /** The last `n` elements of `s` (all of `s` when it is shorter). */
  function LastN<T>(s: seq<T>, n: nat): (r: seq<T>)
    ensures |r| == if |s| <= n then |s| else n
    ensures forall i :: 0 <= i < |r| ==> r[i] == s[|s| - |r| + i]
  {
    if |s| <= n then s else s[|s| - n..]
  }

  /** Appends one point, evicting the oldest one when the result would hold
      more than `Capacity` points. */
  function Push(buf: seq<PricePoint>, p: PricePoint): (r: seq<PricePoint>)
    ensures |r| > 0 && r[|r| - 1] == p
    ensures |buf| < Capacity ==> r == buf + [p]
    ensures |buf| >= Capacity ==> |r| == |buf| && r[..|r| - 1] == buf[1..]
    ensures |buf| <= Capacity ==> |r| <= Capacity
  {
    var grown := buf + [p];
    if |grown| > Capacity then
      assert grown[1..][..|buf| - 1] == buf[1..];
      grown[1..]
    else
      grown
  }

  /** Feeds a whole sequence of points into the buffer, oldest first. */
  function PushAll(buf: seq<PricePoint>, ps: seq<PricePoint>): seq<PricePoint>
    decreases |ps|
  {
    if |ps| == 0 then buf else PushAll(Push(buf, ps[0]), ps[1..])
  }

  lemma LastNOfLastN<T>(s: seq<T>, t: seq<T>, n: nat)
    ensures LastN(LastN(s, n) + t, n) == LastN(s + t, n)
  {
    var a := LastN(LastN(s, n) + t, n);
    var b := LastN(s + t, n);
    assert |a| == |b|;
    forall i | 0 <= i < |a|
      ensures a[i] == b[i]
    {
      var u := LastN(s, n) + t;
      assert a[i] == u[|u| - |a| + i];
      assert b[i] == (s + t)[|s + t| - |b| + i];
    }
  }

  lemma SplitHead<T>(a: seq<T>, s: seq<T>)
    requires |s| > 0
    ensures a + [s[0]] + s[1..] == a + s
  {
    assert s == [s[0]] + s[1..];
  }

  /** One push keeps exactly the last `Capacity` points of the extended
      history. */
  lemma PushIsLastN(buf: seq<PricePoint>, p: PricePoint)
    requires |buf| <= Capacity
    ensures Push(buf, p) == LastN(buf + [p], Capacity)
  {
  }

  /** Whatever the stream delivers, a buffer that starts within capacity
      always holds exactly the most recent `Capacity` points of everything it
      has seen, in arrival order. */
  lemma {:induction false} PushAllKeepsMostRecent(buf: seq<PricePoint>, ps: seq<PricePoint>)
    requires |buf| <= Capacity
    ensures PushAll(buf, ps) == LastN(buf + ps, Capacity)
    decreases |ps|
  {
    if |ps| == 0 {
      assert buf + ps == buf;
    } else {
      var next := Push(buf, ps[0]);
      PushIsLastN(buf, ps[0]);
      assert next == LastN(buf + [ps[0]], Capacity);
      PushAllKeepsMostRecent(next, ps[1..]);
      assert PushAll(buf, ps) == LastN(next + ps[1..], Capacity);
      LastNOfLastN(buf + [ps[0]], ps[1..], Capacity);
      SplitHead(buf, ps);
    }
  }

  /** The buffer never grows beyond its capacity. */
  lemma PushAllBounded(buf: seq<PricePoint>, ps: seq<PricePoint>)
    requires |buf| <= Capacity
    ensures |PushAll(buf, ps)| <= Capacity
  {
    PushAllKeepsMostRecent(buf, ps);
  }
}
