/** `AcumenQueue` (anagram_bot.py): a bounded, time-windowed list of recent
    correct answers per server, sampled to pick the difficulty of the next
    word, and the tier formula of `generate_anagram`. */
module Acumen {
  import opened Common

  /** Entries older than an hour are dropped when a new one arrives. */
  const WindowSeconds: real := 3600.0
  /** `AcumenQueue(max_size=20)` */
  const DefaultMaxSize: nat := 20
  /** What an empty queue answers. */
  const DefaultAcumen: int := 20

  datatype Entry = Entry(user: UserId, acumen: int, time: real)

  /** `[entry for entry in queue if (now - entry.time) <= 3600]` */
  function Recent(q: seq<Entry>, now: real): (r: seq<Entry>)
    ensures |r| <= |q|
    ensures forall k :: 0 <= k < |r| ==> r[k] in q && now - r[k].time <= WindowSeconds
  {
    if q == [] then []
    else (if now - q[0].time <= WindowSeconds then [q[0]] else []) + Recent(q[1..], now)
  }

  /** The filter works element by element, so it keeps arrival order. */
  lemma {:induction false} RecentConcat(a: seq<Entry>, b: seq<Entry>, now: real)
    ensures Recent(a + b, now) == Recent(a, now) + Recent(b, now)
    decreases |a|
  {
    if a != [] {
      RecentConcat(a[1..], b, now);
      assert (a + b)[1..] == a[1..] + b;
    } else {
      assert a + b == b;
    }
  }

  /** Every entry at most an hour old survives the filter. */
  lemma {:induction false} RecentKeepsFresh(q: seq<Entry>, now: real, e: Entry)
    requires e in q && now - e.time <= WindowSeconds
    ensures e in Recent(q, now)
  {
    if q[0] != e {
      RecentKeepsFresh(q[1..], now, e);
    }
  }

  /** The queue after `add_user_message`: stale entries filtered out, the new
      one appended, and the oldest popped when the bound is exceeded. */
  function Admitted(q: seq<Entry>, e: Entry, now: real, maxSize: nat): (r: seq<Entry>)
    ensures |q| <= maxSize ==> |r| <= maxSize
    ensures maxSize > 0 ==> |r| > 0 && r[|r| - 1] == e
    ensures forall k :: 0 <= k < |r| - 1 ==> r[k] in q && now - r[k].time <= WindowSeconds
    // First in, first out: the queue keeps the newest entries, in arrival order.
    ensures |r| <= |Recent(q, now)| + 1
    ensures r == (Recent(q, now) + [e])[|Recent(q, now)| + 1 - |r|..]
    ensures maxSize > 0 ==> r[..|r| - 1] == Recent(q, now)[|Recent(q, now)| - (|r| - 1)..]
    ensures |q| <= maxSize ==> |r| == if |Recent(q, now)| < maxSize then |Recent(q, now)| + 1 else maxSize
  {
    var rec := Recent(q, now);
    var kept := rec + [e];
    if |kept| > maxSize then
      assert kept[1..] == kept[|rec| + 1 - (|kept| - 1)..];
      assert maxSize > 0 ==> kept[1..][..|kept| - 2] == rec[|rec| - (|kept| - 2)..];
      kept[1..]
    else
      assert kept[..|kept| - 1] == rec[|rec| - (|kept| - 1)..];
      kept
  }

  class AcumenQueue {
    var queue: seq<Entry>
    const maxSize: nat

    ghost predicate Valid()
      reads this
    {
      |queue| <= maxSize
    }

    constructor (maxSize: nat)
      ensures Valid() && this.maxSize == maxSize && queue == []
    {
      this.maxSize := maxSize;
      queue := [];
    }

    /** `add_user_message`; `now` is the wall-clock reading the source takes. */
    method AddUserMessage(user: UserId, acumen: int, messageTime: real, now: real)
      requires Valid()
      modifies this
      ensures Valid()
      ensures queue == Admitted(old(queue), Entry(user, acumen, messageTime), now, maxSize)
    {
      queue := Recent(queue, now);
      queue := queue + [Entry(user, acumen, messageTime)];
      if |queue| > maxSize {
        queue := queue[1..];
      }
    }
  }

  predicate AcumensInRange(q: seq<Entry>) {
    forall k :: 0 <= k < |q| ==> 1 <= q[k].acumen <= 100
  }

  /** `get_dynamic_acumen`: `pick` is the index `random.choice` draws and
      `coin1`, `coin2` the two `random.random()` values. The sample is moved
      down by 30 (not below 20) on the first coin, otherwise up by 30 (not
      above 100) on the second, otherwise kept. */
  function DynamicAcumen(q: seq<Entry>, pick: nat, coin1: real, coin2: real): (r: int)
    requires q != [] ==> pick < |q|
    ensures q == [] ==> r == DefaultAcumen
    ensures q != [] && coin1 < 0.3 ==> r == if q[pick].acumen - 30 < 20 then 20 else q[pick].acumen - 30
    ensures q != [] && !(coin1 < 0.3) && coin2 < 0.4 ==> r == if 100 < q[pick].acumen + 30 then 100 else q[pick].acumen + 30
    ensures q != [] && !(coin1 < 0.3) && !(coin2 < 0.4) ==> r == q[pick].acumen
  {
    if q == [] then DefaultAcumen
    else
      var sample := q[pick].acumen;
      if coin1 < 0.3 then (if sample - 30 < 20 then 20 else sample - 30)
      else if coin2 < 0.4 then (if 100 < sample + 30 then 100 else sample + 30)
      else sample
  }

  /** The difficulty signal stays in [1, 100] when every queued acumen does,
      and never moves more than 30 away from the sampled entry. The queue
      can answer less than 20: the unshifted branch returns the sample as is. */
  lemma DynamicAcumenRange(q: seq<Entry>, pick: nat, coin1: real, coin2: real)
    requires q != [] ==> pick < |q|
    requires AcumensInRange(q)
    ensures 1 <= DynamicAcumen(q, pick, coin1, coin2) <= 100
    ensures q != [] ==> q[pick].acumen - 30 <= DynamicAcumen(q, pick, coin1, coin2) <= q[pick].acumen + 30
  {
  }

  /** `min(5, max(1, int(acumen_level/20)))`: the corpus tier of the next word. */
  function WordLevel(acumen: int): (t: int)
    ensures 1 <= t <= 5
    ensures acumen < 40 ==> t == 1
    ensures 100 <= acumen ==> t == 5
    ensures 40 <= acumen < 100 ==> 20 * t <= acumen < 20 * (t + 1)
  {
    Clamp(1, 5, Trunc(acumen as real / 20.0))
  }

  /** A harder signal never gives an easier tier. */
  lemma WordLevelMonotone(x: int, y: int)
    requires x <= y
    ensures WordLevel(x) <= WordLevel(y)
  {
    TruncMonotone(x as real / 20.0, y as real / 20.0);
  }
}
