/** What the telemetry rings stand for: histories of minutes and events, and how much of them a ring still tells. */
module TelemetryRings {

  // ----- the minute ring

  datatype Bucket = Bucket(minute: int, count: nat)

  function Bumped(b: Bucket, minute: int): Bucket {
    if b.minute != minute then Bucket(minute, 1) else Bucket(minute, b.count + 1)
  }

  /** Go's remainder: it has the sign of the dividend, and so is no index for most minutes before 1970. */
  function GoMod(a: int, b: nat): (r: int)
    requires b > 0
    ensures r >= 0 <==> a >= 0 || a % b == 0
    ensures r >= 0 ==> r == a % b
    ensures r < b && -r < b
  {
    NegativeRemainder(a, b);
    if a >= 0 then a % b else -((-a) % b)
  }

  lemma NegativeRemainder(a: int, b: nat)
    requires b > 0
    ensures (-a) % b == 0 <==> a % b == 0
  {
    var q, r := a / b, a % b;
    assert a == q * b + r;
    if r == 0 {
      Multiple(-q, b, 0);
      assert -a == (-q) * b + 0;
    } else {
      Multiple(-q - 1, b, b - r);
      assert -a == (-q - 1) * b + (b - r);
    }
  }

  lemma OneIsNoWindow(a: int, b: nat)
    requires b > 0 && a % b != 0
    ensures b != 1
  {
  }

  /** Of the first two minutes of a window of more than one, one at least is no multiple of it; so it is none before 1970. */
  lemma ReachesBack(start: int, window: nat)
    requires window > 0
    ensures start < 0 && window > 1 ==>
              start % window != 0 || ((start + 1) % window != 0 && start + 1 < 0)
  {
    if start < 0 && window > 1 && start % window == 0 {
      var q := start / window;
      assert start == q * window;
      Multiple(q, window, 1);
      if start == -1 {
        NotPositive(q + 1, window);
      }
    }
  }

  /** The bucket a history of recorded minutes leaves in a slot. */
  function SlotAfter(history: seq<int>, window: nat, slot: nat): Bucket
    requires window > 0
    decreases |history|
  {
    if history == [] then Bucket(0, 0)
    else
      var minute := history[|history| - 1];
      var before := SlotAfter(history[..|history| - 1], window, slot);
      if minute % window == slot then Bumped(before, minute) else before
  }

  function Reported(history: seq<int>, window: nat, minute: int): nat
    requires window > 0
  {
    var b := SlotAfter(history, window, minute % window);
    if b.minute == minute then b.count else 0
  }

  function Count(history: seq<int>, minute: int): nat
    decreases |history|
  {
    if history == [] then 0
    else Count(history[..|history| - 1], minute) + if history[|history| - 1] == minute then 1 else 0
  }

  lemma {:induction false} CountIsMultiplicity(history: seq<int>, minute: int)
    ensures Count(history, minute) == multiset(history)[minute]
    decreases |history|
  {
    if history != [] {
      var n := |history| - 1;
      CountIsMultiplicity(history[..n], minute);
      assert history == history[..n] + [history[n]];
    }
  }

  lemma {:induction false} CountIsZero(history: seq<int>, minute: int)
    ensures Count(history, minute) == 0 <==> forall i | 0 <= i < |history| :: history[i] != minute
    decreases |history|
  {
    if history != [] {
      var n := |history| - 1;
      CountIsZero(history[..n], minute);
      assert forall i | 0 <= i < n :: history[..n][i] == history[i];
    }
  }

  /** After a record of the minute, only the minute itself was recorded in its slot. */
  ghost predicate Undisturbed(history: seq<int>, window: nat, minute: int)
    requires window > 0
  {
    forall i, j | 0 <= i < j < |history| && history[i] == minute && history[j] % window == minute % window :: history[j] == minute
  }

  lemma {:induction false} ReportedSoFar(history: seq<int>, window: nat, minute: int)
    requires window > 0
    ensures Reported(history, window, minute) <= Count(history, minute)
    ensures Reported(history, window, minute) == Count(history, minute) <==> Undisturbed(history, window, minute)
    ensures SlotAfter(history, window, minute % window).minute == minute || Count(history, minute) == 0
            || !Undisturbed(history, window, minute)
    decreases |history|
  {
    if history != [] {
      var n := |history| - 1;
      var before, last := history[..n], history[n];
      ReportedSoFar(before, window, minute);
      CountIsZero(before, minute);
      assert forall i | 0 <= i < n :: before[i] == history[i];
    }
  }

  /** The ring never reports too much, and is exact if and only if nothing else took the minute's slot after it. */
  lemma ReportIsExactIff(history: seq<int>, window: nat, minute: int)
    requires window > 0
    ensures Reported(history, window, minute) <= Count(history, minute)
    ensures Reported(history, window, minute) == Count(history, minute) <==> Undisturbed(history, window, minute)
  {
    ReportedSoFar(history, window, minute);
  }

  /** Every recorded minute is less than a window older than the newest before it, so records may come out of order. */
  ghost predicate InWindow(history: seq<int>, window: nat) {
    forall i, j | 0 <= i < j < |history| :: history[j] > history[i] - window
  }

  lemma SameSlotIsFarAway(a: int, b: int, window: nat)
    requires window > 0 && a % window == b % window && a < b
    ensures b - a >= window
  {
    var p, q := a / window, b / window;
    assert a == p * window + a % window && b == q * window + b % window;
    assert b - a == (q - p) * window;
    if q <= p {
      NotPositive(q - p, window);
    } else {
      NotPositive(p - q + 1, window);
      assert (q - p) * window == window + (q - p - 1) * window;
    }
  }

  lemma NotPositive(x: int, y: nat)
    requires x <= 0
    ensures x * y <= 0
  {
  }

  /** Within the window, and asked no earlier than the newest record, the ring gives the exact count of every minute it covers. */
  lemma WindowIsExact(history: seq<int>, window: nat, current: int, minute: int)
    requires window > 0 && InWindow(history, window) && forall m | m in history :: m <= current
    requires current - window < minute <= current
    ensures Reported(history, window, minute) == Count(history, minute)
  {
    forall i, j | 0 <= i < j < |history| && history[i] == minute && history[j] % window == minute % window
      ensures history[j] == minute
    {
      assert history[j] in history;
      if history[j] < minute {
        SameSlotIsFarAway(history[j], minute, window);
      } else if minute < history[j] {
        SameSlotIsFarAway(minute, history[j], window);
      }
    }
    ReportIsExactIff(history, window, minute);
  }

  // ----- the event ring

  function Min(a: nat, b: nat): nat {
    if a < b then a else b
  }

  lemma NextSlot(n: nat, capacity: nat)
    requires capacity > 0
    ensures (n % capacity + 1) % capacity == (n + 1) % capacity
  {
    var q, r := n / capacity, n % capacity;
    assert n == q * capacity + r;
    if r + 1 == capacity {
      Multiple(q + 1, capacity, 0);
      Multiple(1, capacity, 0);
    } else {
      Multiple(q, capacity, r + 1);
      Multiple(0, capacity, r + 1);
    }
  }

  lemma Multiple(q: int, capacity: nat, r: nat)
    requires r < capacity
    ensures (q * capacity + r) % capacity == r
  {
    var x := q * capacity + r;
    var p := x / capacity;
    assert x == p * capacity + x % capacity;
    assert (q - p) * capacity == x % capacity - r;
    if q > p {
      NotPositive(p - q + 1, capacity);
      assert (q - p) * capacity == capacity + (q - p - 1) * capacity;
    } else if q < p {
      NotPositive(q - p + 1, capacity);
    }
  }

  /** The slot recentEvents reads for the i-th newest event is the one that event was put in. */
  lemma RecentSlot(n: nat, i: nat, capacity: nat)
    requires i < capacity && i < n
    ensures (n % capacity - 1 - i + capacity) % capacity == (n - 1 - i) % capacity
  {
    var k := n - 1 - i;
    var r, q := n % capacity, n / capacity;
    assert n == q * capacity + r;
    var x := r - 1 - i + capacity;
    assert k == (q - 1) * capacity + x;
    if x < capacity {
      Multiple(q - 1, capacity, x);
      Multiple(0, capacity, x);
    } else {
      Multiple(q, capacity, x - capacity);
      Multiple(1, capacity, x - capacity);
      assert k == q * capacity + (x - capacity);
    }
  }

  lemma NearSlotsDiffer(a: nat, b: nat, capacity: nat)
    requires a < b < a + capacity
    ensures a % capacity != b % capacity
  {
    if a % capacity == b % capacity {
      SameSlotIsFarAway(a, b, capacity);
    }
  }
}
