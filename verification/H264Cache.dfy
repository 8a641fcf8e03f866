/** The H.264 decoder's contexts: a cache of the regions used last. */
module H264Cache {
  import opened Bytes
  import opened ReceiveQueue
  import opened Tiles

  const MAX_CONTEXTS: nat := 64

  // The reference: regions in the order of their last use

  /** A list without one of its regions. */
  function Without(s: seq<Rect>, r: Rect): (t: seq<Rect>)
    ensures forall x :: x in t <==> x in s && x != r
  {
    if s == [] then [] else if s[0] == r then Without(s[1..], r) else [s[0]] + Without(s[1..], r)
  }

  /** The distinct regions of a history, the one used last in front. */
  function ByLastUse(history: seq<Rect>): (s: seq<Rect>)
    ensures forall x :: x in s <==> x in history
  {
    if history == [] then [] else
    var n := |history| - 1;
    [history[n]] + Without(ByLastUse(history[..n]), history[n])
  }

  function UpTo(s: seq<Rect>, n: nat): (t: seq<Rect>)
    ensures |t| <= n && |t| <= |s|
  {
    if |s| <= n then s else s[..n]
  }

  /** What the cache should hold. */
  function Recent(history: seq<Rect>): seq<Rect> {
    UpTo(ByLastUse(history), MAX_CONTEXTS)
  }

  ghost predicate Distinct(s: seq<Rect>) {
    forall i, j | 0 <= i < j < |s| :: s[i] != s[j]
  }

  lemma {:induction false} WithoutAbsent(s: seq<Rect>, r: Rect)
    requires r !in s
    ensures Without(s, r) == s
  {
    if s != [] {
      WithoutAbsent(s[1..], r);
    }
  }

  lemma DistinctCons(x: Rect, s: seq<Rect>)
    ensures Distinct([x] + s) <==> x !in s && Distinct(s)
  {
    var t := [x] + s;
    if Distinct(t) {
      assert forall i | 0 <= i < |s| :: t[i + 1] == s[i] && t[0] != t[i + 1];
    }
  }

  lemma {:induction false} WithoutFacts(s: seq<Rect>, r: Rect)
    requires Distinct(s)
    ensures Distinct(Without(s, r)) && |Without(s, r)| == if r in s then |s| - 1 else |s|
  {
    if s != [] {
      assert s == [s[0]] + s[1..];
      DistinctCons(s[0], s[1..]);
      if s[0] == r {
        WithoutAbsent(s[1..], r);
      } else {
        WithoutFacts(s[1..], r);
        DistinctCons(s[0], Without(s[1..], r));
      }
    }
  }

  lemma {:induction false} ByLastUseDistinct(history: seq<Rect>)
    ensures Distinct(ByLastUse(history))
  {
    if history != [] {
      var n := |history| - 1;
      ByLastUseDistinct(history[..n]);
      WithoutFacts(ByLastUse(history[..n]), history[n]);
    }
  }

  lemma UpToCons(x: Rect, s: seq<Rect>, n: nat)
    ensures UpTo([x] + s, n + 1) == [x] + UpTo(s, n)
  {
  }

  /** Removing a region from a list and then cutting the list. */
  lemma {:induction false} CutWithout(s: seq<Rect>, r: Rect, n: nat)
    requires Distinct(s)
    ensures UpTo(Without(s, r), n) == if r in UpTo(s, n + 1) then Without(UpTo(s, n + 1), r) else UpTo(s, n)
    decreases |s|, 1
  {
    if s != [] {
      var x, t := s[0], s[1..];
      assert s == [x] + t;
      DistinctCons(x, t);
      UpToCons(x, t, n);
      assert UpTo(s, n + 1)[1..] == UpTo(t, n);
      if x == r {
        WithoutAbsent(t, r);
        WithoutAbsent(UpTo(t, n), r);
      } else if n == 0 {
        assert UpTo(s, 1) == [x];
      } else {
        CutKeepsFirst(x, t, r, n);
      }
    }
  }

  lemma {:induction false} CutKeepsFirst(x: Rect, t: seq<Rect>, r: Rect, n: nat)
    requires Distinct(t) && x != r && n > 0
    ensures var s := [x] + t;
            UpTo(Without(s, r), n) == if r in UpTo(s, n + 1) then Without(UpTo(s, n + 1), r) else UpTo(s, n)
    decreases |t| + 1, 0
  {
    CutWithout(t, r, n - 1);
    UpToCons(x, t, n);
    UpToCons(x, t, n - 1);
    UpToCons(x, Without(t, r), n - 1);
    WithoutCons(x, t, r);
    WithoutCons(x, UpTo(t, n), r);
    hide UpTo, Distinct, Without;
  }

  lemma WithoutCons(x: Rect, t: seq<Rect>, r: Rect)
    requires x != r
    ensures Without([x] + t, r) == [x] + Without(t, r)
  {
    assert ([x] + t)[1..] == t;
  }

  /** One more use: the region comes to the front; if it was not there and the
      cache is full, the last one goes. */
  lemma RecentStep(history: seq<Rect>, r: Rect)
    ensures var c := Recent(history);
            Recent(history + [r]) ==
              if r in c then [r] + Without(c, r)
              else if |c| == MAX_CONTEXTS then [r] + c[..MAX_CONTEXTS - 1]
              else [r] + c
  {
    var s := ByLastUse(history);
    ByLastUseDistinct(history);
    assert (history + [r])[..|history|] == history;
    assert ByLastUse(history + [r]) == [r] + Without(s, r);
    hide ByLastUse, Distinct, Without;
    CutWithout(s, r, MAX_CONTEXTS - 1);
    UpToCons(r, Without(s, r), MAX_CONTEXTS - 1);
  }

  // What being recent means

  /** The regions used since a region was used last. */
  ghost function UsedSince(history: seq<Rect>, r: Rect): set<Rect>
    requires r in history
  {
    var n := |history| - 1;
    if history[n] == r then {} else UsedSince(history[..n], r) + {history[n]}
  }

  /** The regions in front of one in a list. */
  ghost function InFront(list: seq<Rect>, r: Rect): set<Rect>
    requires r in list
  {
    if list[0] == r then {} else InFront(list[1..], r) + {list[0]}
  }

  lemma {:induction false} InFrontWithout(list: seq<Rect>, k: Rect, r: Rect)
    requires r in list && r != k
    ensures InFront(Without(list, k), r) == InFront(list, r) - {k}
  {
    if list[0] != r {
      InFrontWithout(list[1..], k, r);
      assert list[0] != k ==> Without(list, k)[1..] == Without(list[1..], k);
    }
  }

  lemma {:induction false} InFrontIsSince(history: seq<Rect>, r: Rect)
    requires r in history
    ensures InFront(ByLastUse(history), r) == UsedSince(history, r)
  {
    var n := |history| - 1;
    if history[n] != r {
      InFrontIsSince(history[..n], r);
      InFrontWithout(ByLastUse(history[..n]), history[n], r);
      assert ByLastUse(history)[1..] == Without(ByLastUse(history[..n]), history[n]);
    }
  }

  lemma {:induction false} CutByCount(list: seq<Rect>, r: Rect, n: nat)
    requires r in list && Distinct(list)
    ensures r in UpTo(list, n) <==> |InFront(list, r)| < n
    ensures InFront(list, r) <= (set x | x in list)
    decreases |list|
  {
    var x, t := list[0], list[1..];
    assert list == [x] + t;
    DistinctCons(x, t);
    if x != r {
      CutByCount(t, r, if n > 0 then n - 1 else 0);
      assert x !in InFront(t, r);
      if n > 0 {
        UpToCons(x, t, n - 1);
      }
    }
  }

  /** A region is recent exactly if it was used, and fewer than 64 others since. */
  lemma RecentMeansFewOthersSince(history: seq<Rect>, r: Rect)
    ensures r in Recent(history) <==> r in history && |UsedSince(history, r)| < MAX_CONTEXTS
  {
    if r in history {
      ByLastUseDistinct(history);
      InFrontIsSince(history, r);
      CutByCount(ByLastUse(history), r, MAX_CONTEXTS);
    }
  }

  // The cache

  /** The regions are the ones listed, used more recently the further in front. */
  ghost predicate Ordered(list: seq<Rect>, lastUsed: map<Rect, nat>) {
    && (forall r :: r in list <==> r in lastUsed)
    && (forall i, j | 0 <= i < j < |list| :: lastUsed[list[i]] > lastUsed[list[j]])
  }

  lemma {:induction false} WithoutSplit(list: seq<Rect>, r: Rect, k: nat)
    requires Distinct(list) && k < |list| && list[k] == r
    ensures Without(list, r) == list[..k] + list[k + 1..]
  {
    assert list == [list[0]] + list[1..];
    DistinctCons(list[0], list[1..]);
    if k == 0 {
      WithoutAbsent(list[1..], r);
    } else {
      assert r in list[1..];
      WithoutSplit(list[1..], r, k - 1);
      assert list[..k] == [list[0]] + list[1..][..k - 1] && list[1..][k..] == list[k + 1..];
    }
  }

  lemma OrderedDistinct(list: seq<Rect>, lastUsed: map<Rect, nat>)
    requires Ordered(list, lastUsed)
    ensures Distinct(list)
  {
  }

  lemma WithoutOrdered(list: seq<Rect>, lastUsed: map<Rect, nat>, r: Rect)
    requires Ordered(list, lastUsed)
    ensures Ordered(Without(list, r), lastUsed - {r})
    ensures |Without(list, r)| == if r in list then |list| - 1 else |list|
    ensures r !in list ==> Without(list, r) == list
  {
    OrderedDistinct(list, lastUsed);
    WithoutFacts(list, r);
    if r in list {
      var k :| 0 <= k < |list| && list[k] == r;
      WithoutSplit(list, r, k);
      GapOrdered(list, lastUsed, k);
    } else {
      WithoutAbsent(list, r);
      assert lastUsed - {r} == lastUsed;
    }
    hide Without, Distinct, Ordered;
  }

  lemma GapOrdered(list: seq<Rect>, lastUsed: map<Rect, nat>, k: nat)
    requires Ordered(list, lastUsed) && k < |list|
    ensures Ordered(list[..k] + list[k + 1..], lastUsed - {list[k]})
  {
    var w, m := list[..k] + list[k + 1..], lastUsed - {list[k]};
    forall i | 0 <= i < |w|
      ensures w[i] == list[if i < k then i else i + 1] && w[i] in m
    {
    }
    forall x | x in m
      ensures x in w
    {
      var i :| 0 <= i < |list| && list[i] == x;
      assert x == w[if i < k then i else i - 1];
    }
    forall i, j | 0 <= i < j < |w|
      ensures m[w[i]] > m[w[j]]
    {
    }
  }

  lemma UsedNow(list: seq<Rect>, lastUsed: map<Rect, nat>, r: Rect, tick: nat)
    requires Ordered(list, lastUsed) && r !in list && forall x | x in lastUsed :: lastUsed[x] < tick
    ensures Ordered([r] + list, lastUsed[r := tick])
  {
  }

  lemma LastIsOldest(list: seq<Rect>, lastUsed: map<Rect, nat>, r: Rect)
    requires Ordered(list, lastUsed) && r in lastUsed && forall x | x in lastUsed :: lastUsed[r] <= lastUsed[x]
    ensures list != [] && r == list[|list| - 1]
    ensures Ordered(list[..|list| - 1], lastUsed - {r})
  {
    var n := |list| - 1;
    assert list[n] in lastUsed;
    forall i | 0 <= i < n
      ensures list[i] != list[n] && list[..n][i] == list[i]
    {
    }
  }

  lemma {:induction false} OrderedSize(list: seq<Rect>, lastUsed: map<Rect, nat>)
    requires Ordered(list, lastUsed)
    ensures |lastUsed.Keys| == |list|
    decreases |list|
  {
    if list == [] {
      assert lastUsed.Keys == {};
    } else {
      var n := |list| - 1;
      LastIsLeast(list, lastUsed);
      LastIsOldest(list, lastUsed, list[n]);
      OrderedSize(list[..n], lastUsed - {list[n]});
      assert lastUsed.Keys == (lastUsed - {list[n]}).Keys + {list[n]};
    }
  }

  lemma LastIsLeast(list: seq<Rect>, lastUsed: map<Rect, nat>)
    requires Ordered(list, lastUsed) && list != []
    ensures forall x | x in lastUsed :: lastUsed[list[|list| - 1]] <= lastUsed[x]
  {
  }

  class H264Decoder {
    var tick: nat
    var contexts: map<Rect, nat>        // when each was used last
    ghost var history: seq<Rect>        // the regions used since the last reset of all

    ghost predicate Valid()
      reads this
    {
      Ordered(Recent(history), contexts) && forall r | r in contexts :: contexts[r] < tick
    }

    constructor ()
      ensures Valid() && history == []
    {
      tick, contexts, history := 0, map[], [];
    }

    method FindOldest() returns (oldest: Rect)
      requires contexts != map[]
      ensures oldest in contexts && forall r | r in contexts :: contexts[oldest] <= contexts[r]
    {
      oldest :| oldest in contexts;
      var rest := contexts.Keys - {oldest};
      while rest != {}
        invariant rest <= contexts.Keys && oldest in contexts
        invariant forall r | r in contexts && r !in rest :: contexts[oldest] <= contexts[r]
        decreases |rest|
      {
        var r :| r in rest;
        if contexts[r] < contexts[oldest] {
          oldest := r;
        }
        rest := rest - {r};
      }
    }

    /** Finds or makes the region's context and marks it as just used. */
    method Use(r: Rect, ghost list: seq<Rect>)
      requires Ordered(list, contexts) && |list| <= MAX_CONTEXTS && forall x | x in contexts :: contexts[x] < tick
      modifies `tick, `contexts
      ensures forall x | x in contexts :: contexts[x] < tick
      ensures Ordered(if r in list then [r] + Without(list, r)
                      else if |list| == MAX_CONTEXTS then [r] + list[..MAX_CONTEXTS - 1]
                      else [r] + list, contexts)
    {
      hide Without;
      if r !in contexts {
        OrderedSize(list, contexts);
        if |contexts| >= MAX_CONTEXTS {
          var oldest := FindOldest();
          LastIsOldest(list, contexts, oldest);
          UsedNow(list[..|list| - 1], contexts - {oldest}, r, tick);
          contexts := contexts - {oldest};
        } else {
          UsedNow(list, contexts, r, tick);
        }
      } else {
        WithoutOrdered(list, contexts, r);
        UsedNow(Without(list, r), contexts - {r}, r, tick);
        assert (contexts - {r})[r := tick] == contexts[r := tick];
      }
      hide Ordered;
      contexts := contexts[r := tick];
      tick := tick + 1;
    }

    /** What the flags of a rectangle do to the cache, and the rectangle's use. */
    method Access(r: Rect, flags: nat)
      requires Valid()
      modifies this
      ensures Valid() && history == (if flags / 2 % 2 == 1 then [] else old(history)) + [r]
    {
      RecentStep(history, r);
      RecentStep([], r);
      ghost var list := Recent(history);
      WithoutOrdered(list, contexts, r);
      NothingUsed();
      hide Ordered, Recent, Without;
      if flags / 2 % 2 == 1 {
        contexts := map[];
        history := [];
        list := [];
      } else if flags % 2 == 1 {
        contexts := contexts - {r};
        list := Without(list, r);
      }
      Use(r, list);
      history := history + [r];
    }

    /** Length, flags and payload; all of it is read again when the payload is not
        there yet. */
    static method TakePayload(sock: ReceiveBuffer) returns (flags: nat, payload: Option<seq<byte>>)
      requires sock.Valid()
      modifies sock`rQi, sock`consumed, sock`unread
      ensures sock.Valid()
      ensures var q := old(sock.unread);
              if |q| < 8 || |q| < 8 + BigEndian(q[..4]) then payload == None && sock.Queue() == old(sock.Queue())
              else payload == Some(q[8..][..BigEndian(q[..4])]) && sock.unread == q[8..][BigEndian(q[..4])..]
                   && flags == BigEndian(q[4..8])
    {
      hide BigEndian;
      var wait := sock.Wait(8, 0);
      if wait == Some(true) {
        return 0, None;
      }
      ghost var q, queue := sock.unread, sock.Queue();
      var length := sock.Shift(4);
      assert q[4..][..4] == q[4..8] && q[4..][4..] == q[8..];
      flags := sock.Shift(4);
      TakeTwice(queue, 4, 4);
      GoBackUndoesTake(queue, 8);
      hide Fifo.Take, Fifo.GoBack;
      wait := sock.Wait(length, 8);
      if wait == Some(true) {
        return flags, None;
      }
      var data := sock.ShiftBytes(length);
      return flags, Some(data);
    }

    method DecodeRect(r: Rect, sock: ReceiveBuffer) returns (payload: Option<seq<byte>>)
      requires Valid() && sock.Valid()
      modifies this, sock`rQi, sock`consumed, sock`unread
      ensures Valid() && sock.Valid()
      ensures var q := old(sock.unread);
              if |q| < 8 || |q| < 8 + BigEndian(q[..4])
              then payload == None && sock.Queue() == old(sock.Queue()) && history == old(history)
              else payload == Some(q[8..][..BigEndian(q[..4])]) && sock.unread == q[8..][BigEndian(q[..4])..]
                   && history == (if BigEndian(q[4..8]) / 2 % 2 == 1 then [] else old(history)) + [r]
    {
      hide BigEndian, Recent, Ordered;
      var flags;
      flags, payload := TakePayload(sock);
      if payload.Some? {
        Access(r, flags);
      }
    }
  }

  lemma TakeTwice(q: Fifo, a: nat, b: nat)
    requires a + b <= |q.unread|
    ensures q.Take(a).Take(b) == q.Take(a + b)
  {
    assert q.unread[..a] + q.unread[a..][..b] == q.unread[..a + b];
    assert q.unread[a..][b..] == q.unread[a + b..];
  }

  lemma NothingUsed()
    ensures Recent([]) == [] && Ordered([], map[])
  {
  }
}
