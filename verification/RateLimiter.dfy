/** The in-process sliding-window rate limiter. */
module RateLimiter {

  type Key = string

  datatype Call = Call(key: Key, limit: int, window: real, now: real)

  /** The hits that are still inside the window ending at `now`. */
  function Recent(hits: seq<real>, window: real, now: real): seq<real> {
    if hits == [] then [] else
    var before, last := Recent(hits[..|hits| - 1], window, now), hits[|hits| - 1];
    if now - last < window then before + [last] else before
  }

  predicate Allows(hits: seq<real>, call: Call) {
    |Recent(hits, call.window, call.now)| < call.limit
  }

  /** The stored hits of `key` after `calls`. */
  function HitsAfter(calls: seq<Call>, key: Key): seq<real> {
    if calls == [] then [] else
    var before, call := HitsAfter(calls[..|calls| - 1], key), calls[|calls| - 1];
    if call.key != key then before
    else if Allows(before, call) then Recent(before, call.window, call.now) + [call.now]
    else Recent(before, call.window, call.now)
  }

  /** The times of all admitted calls of `key`, including those forgotten since. */
  function Admitted(calls: seq<Call>, key: Key): seq<real> {
    if calls == [] then [] else
    var before, call := Admitted(calls[..|calls| - 1], key), calls[|calls| - 1];
    if call.key == key && Allows(HitsAfter(calls[..|calls| - 1], key), call) then before + [call.now] else before
  }

  class InMemoryRateLimiter {
    var hits: map<Key, seq<real>>
    ghost var calls: seq<Call> // the calls so far, in the order they got the lock

    ghost predicate Valid()
      reads this
    {
      forall k :: Stored(k) == HitsAfter(calls, k)
    }

    function Stored(key: Key): seq<real>
      reads this`hits
    {
      if key in hits then hits[key] else []
    }

    constructor ()
      ensures Valid() && calls == []
    {
      hits, calls := map[], [];
    }

    method Allow(key: Key, limit: int, window: real, now: real) returns (allowed: bool)
      requires Valid()
      modifies this
      ensures Valid() && calls == old(calls) + [Call(key, limit, window, now)]
      ensures allowed <==> Admitted(calls, key) == Admitted(old(calls), key) + [now]
      ensures !allowed <==> Admitted(calls, key) == Admitted(old(calls), key)
      ensures forall k :: k != key ==> Stored(k) == old(Stored(k))
    {
      var kept := Filter(Stored(key), window, now);
      ghost var call := Call(key, limit, window, now);
      calls := calls + [call];
      allowed := |kept| < limit;
      hits := hits[key := if allowed then kept + [now] else kept];
      AfterOneMore(old(calls), call);
      forall k ensures Stored(k) == HitsAfter(calls, k) {
        if k != key { OtherKeyAfterOneMore(old(calls), call, k); }
      }
    }
  }

  lemma AfterOneMore(calls: seq<Call>, call: Call)
    ensures var hits := HitsAfter(calls, call.key);
            && HitsAfter(calls + [call], call.key)
               == (if Allows(hits, call) then Recent(hits, call.window, call.now) + [call.now]
                 else Recent(hits, call.window, call.now))
            && Admitted(calls + [call], call.key)
               == (if Allows(hits, call) then Admitted(calls, call.key) + [call.now] else Admitted(calls, call.key))
  {
  }

  lemma OtherKeyAfterOneMore(calls: seq<Call>, call: Call, key: Key)
    requires key != call.key
    ensures HitsAfter(calls + [call], key) == HitsAfter(calls, key)
  {
  }

  method Filter(hits: seq<real>, window: real, now: real) returns (kept: seq<real>)
    ensures kept == Recent(hits, window, now)
  {
    kept := [];
    for i := 0 to |hits|
      invariant kept == Recent(hits[..i], window, now)
    {
      assert hits[..i + 1][..i] == hits[..i];
      if now - hits[i] < window { kept := kept + [hits[i]]; }
    }
    assert hits[..|hits|] == hits;
  }

  // ---- what the limiter promises

  function Max0(n: int): nat {
    if n < 0 then 0 else n
  }

  function CountIn(times: seq<real>, from: real, to: real): nat {
    if times == [] then 0
    else CountIn(times[..|times| - 1], from, to) + if from <= times[|times| - 1] < to then 1 else 0
  }

  /** All calls of `key` use one limit and one window, and their times never go back. */
  predicate Steady(calls: seq<Call>, key: Key, limit: int, window: real) {
    && (forall i :: 0 <= i < |calls| && calls[i].key == key ==> calls[i].limit == limit && calls[i].window == window)
    && (forall i, j :: 0 <= i < j < |calls| && calls[i].key == key && calls[j].key == key ==>
      calls[i].now <= calls[j].now)
  }

  lemma {:induction false} RecentTwice(hits: seq<real>, window: real, earlier: real, now: real)
    requires earlier <= now
    ensures Recent(Recent(hits, window, earlier), window, now) == Recent(hits, window, now)
    decreases |hits|
  {
    if hits != [] {
      var before, last := Recent(hits[..|hits| - 1], window, earlier), hits[|hits| - 1];
      RecentTwice(hits[..|hits| - 1], window, earlier, now);
      assert (before + [last])[..|before|] == before;
    }
  }

  lemma RecentOfExtended(hits: seq<real>, window: real, now: real, time: real)
    ensures Recent(hits + [time], window, now)
            == if now - time < window then Recent(hits, window, now) + [time] else Recent(hits, window, now)
  {
  }

  /** Forgetting old hits loses nothing: what is stored counts like the whole history. */
  lemma {:induction false} StoredHitsCountAsHistory(calls: seq<Call>, key: Key, limit: int, window: real, now: real)
    requires Steady(calls, key, limit, window)
    requires forall i :: 0 <= i < |calls| && calls[i].key == key ==> calls[i].now <= now
    ensures Recent(HitsAfter(calls, key), window, now) == Recent(Admitted(calls, key), window, now)
    decreases |calls|
  {
    if calls != [] {
      var front, call := calls[..|calls| - 1], calls[|calls| - 1];
      StoredHitsCountAsHistory(front, key, limit, window, now);
      if call.key == key {
        var hits := HitsAfter(front, key);
        RecentTwice(hits, window, call.now, now);
        RecentOfExtended(Recent(hits, window, call.now), window, now, call.now);
        RecentOfExtended(Admitted(front, key), window, now, call.now);
      }
    }
  }

  /** A call is refused exactly when `limit` admitted calls lie in the window that ends with it. */
  lemma RefusedExactlyWhenFull(calls: seq<Call>, call: Call)
    requires Steady(calls + [call], call.key, call.limit, call.window)
    ensures Admitted(calls + [call], call.key) == Admitted(calls, call.key)
            <==> |Recent(Admitted(calls, call.key), call.window, call.now)| >= call.limit
  {
    var all := calls + [call];
    assert all[..|calls|] == calls;
    forall i | 0 <= i < |calls| ensures calls[i] == all[i] {}
    assert all[|calls|] == call;
    StoredHitsCountAsHistory(calls, call.key, call.limit, call.window, call.now);
  }

  lemma {:induction false} CountIsBelowRecent(times: seq<real>, window: real, from: real, now: real)
    requires now < from + window
    ensures CountIn(times, from, from + window) <= |Recent(times, window, now)|
    decreases |times|
  {
    if times != [] { CountIsBelowRecent(times[..|times| - 1], window, from, now); }
  }

  /** No half-open interval of the window's length holds more than `limit` admitted calls. */
  lemma {:induction false} WindowsHoldAtMostLimit(calls: seq<Call>, key: Key, limit: int, window: real, from: real)
    requires Steady(calls, key, limit, window)
    ensures CountIn(Admitted(calls, key), from, from + window) <= Max0(limit)
    decreases |calls|
  {
    if calls != [] {
      var front, call := calls[..|calls| - 1], calls[|calls| - 1];
      WindowsHoldAtMostLimit(front, key, limit, window, from);
      if call.key == key && from <= call.now < from + window {
        StoredHitsCountAsHistory(front, key, limit, window, call.now);
        CountIsBelowRecent(Admitted(front, key), window, from, call.now);
      }
    }
  }

  /** One limit and one window, and no call gets the lock more than `late` after a call whose
      time is later. */
  predicate NearlySteady(calls: seq<Call>, key: Key, limit: int, window: real, late: real) {
    && (forall i :: 0 <= i < |calls| && calls[i].key == key ==> calls[i].limit == limit && calls[i].window == window)
    && (forall i, j :: 0 <= i < j < |calls| && calls[i].key == key && calls[j].key == key ==>
          calls[i].now <= calls[j].now + late)
  }

  lemma {:induction false} CountOfRecent(hits: seq<real>, window: real, now: real, from: real, to: real)
    requires now < from + window
    ensures CountIn(Recent(hits, window, now), from, to) == CountIn(hits, from, to)
    decreases |hits|
  {
    if hits != [] {
      var before, last := Recent(hits[..|hits| - 1], window, now), hits[|hits| - 1];
      CountOfRecent(hits[..|hits| - 1], window, now, from, to);
      assert (before + [last])[..|before|] == before;
    }
  }

  lemma CountOfOneMore(times: seq<real>, time: real, from: real, to: real)
    ensures CountIn(times + [time], from, to) == CountIn(times, from, to) + if from <= time < to then 1 else 0
  {
  }

  /** Until a call's time is past the window from `from` on, no hit since `from` is forgotten. */
  lemma {:induction false} StoredHitsCountSince(calls: seq<Call>, key: Key, limit: int, window: real, from: real,
                                                to: real)
    requires forall i :: 0 <= i < |calls| && calls[i].key == key ==>
               calls[i].limit == limit && calls[i].window == window && calls[i].now < from + window
    ensures CountIn(HitsAfter(calls, key), from, to) == CountIn(Admitted(calls, key), from, to)
    decreases |calls|
  {
    if calls != [] {
      var front, call := calls[..|calls| - 1], calls[|calls| - 1];
      StoredHitsCountSince(front, key, limit, window, from, to);
      if call.key == key {
        var hits := HitsAfter(front, key);
        CountOfRecent(hits, window, call.now, from, to);
        CountOfOneMore(Recent(hits, window, call.now), call.now, from, to);
        CountOfOneMore(Admitted(front, key), call.now, from, to);
      }
    }
  }

  lemma {:induction false} CountIsWithin(times: seq<real>, from: real, to: real)
    ensures CountIn(times, from, to) <= |times|
    decreases |times|
  {
    if times != [] { CountIsWithin(times[..|times| - 1], from, to); }
  }

  /** With calls up to `late` out of order, no half-open interval that much shorter than the
      window holds more than `limit` admitted calls. */
  lemma {:induction false} LateWindowsHoldAtMostLimit(calls: seq<Call>, key: Key, limit: int, window: real,
                                                      late: real, from: real)
    requires late >= 0.0 && NearlySteady(calls, key, limit, window, late)
    ensures CountIn(Admitted(calls, key), from, from + window - late) <= Max0(limit)
    decreases |calls|
  {
    if calls != [] {
      var front, call := calls[..|calls| - 1], calls[|calls| - 1];
      var to := from + window - late;
      LateWindowsHoldAtMostLimit(front, key, limit, window, late, from);
      assert calls == front + [call];
      if call.key == key {
        LateCallKeepsLimit(front, call, limit, window, late, from);
      } else {
        OtherKeyAdmittedAfterOneMore(front, call, key);
      }
    }
  }

  /** What is stored at a late call counts all admitted calls of the shorter interval. */
  lemma StoredAtLateCall(front: seq<Call>, call: Call, limit: int, window: real, late: real, from: real)
    requires late >= 0.0 && NearlySteady(front + [call], call.key, limit, window, late)
    requires from <= call.now < from + window - late
    ensures CountIn(Admitted(front, call.key), from, from + window - late)
            <= |Recent(HitsAfter(front, call.key), window, call.now)|
  {
    var to, hits := from + window - late, HitsAfter(front, call.key);
    CallsBefore(front, call, limit, window, late);
    StoredHitsCountSince(front, call.key, limit, window, from, to);
    CountOfRecent(hits, window, call.now, from, to);
    CountIsWithin(Recent(hits, window, call.now), from, to);
  }

  lemma LateCallKeepsLimit(front: seq<Call>, call: Call, limit: int, window: real, late: real, from: real)
    requires late >= 0.0 && NearlySteady(front + [call], call.key, limit, window, late)
    requires CountIn(Admitted(front, call.key), from, from + window - late) <= Max0(limit)
    ensures CountIn(Admitted(front + [call], call.key), from, from + window - late) <= Max0(limit)
  {
    CallsBefore(front, call, limit, window, late);
    if from <= call.now < from + window - late { StoredAtLateCall(front, call, limit, window, late, from); }
    CountAfterOneMore(front, call, from, from + window - late);
  }

  lemma CountAfterOneMore(calls: seq<Call>, call: Call, from: real, to: real)
    ensures CountIn(Admitted(calls + [call], call.key), from, to)
            == CountIn(Admitted(calls, call.key), from, to)
               + if Allows(HitsAfter(calls, call.key), call) && from <= call.now < to then 1 else 0
  {
    AfterOneMore(calls, call);
    CountOfOneMore(Admitted(calls, call.key), call.now, from, to);
  }

  lemma CallsBefore(front: seq<Call>, call: Call, limit: int, window: real, late: real)
    requires NearlySteady(front + [call], call.key, limit, window, late)
    ensures call.limit == limit && call.window == window
    ensures forall i :: 0 <= i < |front| && front[i].key == call.key ==>
              front[i].limit == limit && front[i].window == window && front[i].now <= call.now + late
  {
    var all := front + [call];
    assert all[|front|] == call;
    forall i | 0 <= i < |front| && front[i].key == call.key
      ensures front[i].limit == limit && front[i].window == window && front[i].now <= call.now + late
    {
      assert all[i] == front[i];
    }
  }

  function CallsOf(calls: seq<Call>, key: Key): seq<Call> {
    if calls == [] then [] else
    var before, call := CallsOf(calls[..|calls| - 1], key), calls[|calls| - 1];
    if call.key == key then before + [call] else before
  }

  /** What happens to one key depends on the calls of that key only. */
  lemma {:induction false} KeysAreIndependent(calls: seq<Call>, key: Key)
    ensures HitsAfter(calls, key) == HitsAfter(CallsOf(calls, key), key)
    ensures Admitted(calls, key) == Admitted(CallsOf(calls, key), key)
    decreases |calls|
  {
    if calls != [] {
      var front := calls[..|calls| - 1];
      KeysAreIndependent(front, key);
      assert (CallsOf(front, key) + [calls[|calls| - 1]])[..|CallsOf(front, key)|] == CallsOf(front, key);
    }
  }

  // ---- a clock read before the lock

  lemma AdmitsOneMore(calls: seq<Call>, call: Call, kept: seq<real>, from: real, to: real)
    requires kept == Recent(HitsAfter(calls, call.key), call.window, call.now) && |kept| < call.limit
    ensures HitsAfter(calls + [call], call.key) == kept + [call.now]
    ensures CountIn(Admitted(calls + [call], call.key), from, to)
            == CountIn(Admitted(calls, call.key), from, to) + if from <= call.now < to then 1 else 0
  {
    AfterOneMore(calls, call);
    CountOfOneMore(Admitted(calls, call.key), call.now, from, to);
  }

  lemma RecentOfOne(time: real, window: real, now: real)
    ensures Recent([time], window, now) == if now - time < window then [time] else []
  {
    RecentOfExtended([], window, now, time);
    assert [] + [time] == [time];
  }

  lemma RecentOfTwo(first: real, second: real, window: real, now: real)
    requires now - first >= window && now - second >= window
    ensures Recent([first] + [second], window, now) == []
  {
    RecentOfExtended([first], window, now, second);
    RecentOfOne(first, window, now);
  }

  lemma OneAdmitted(call: Call, from: real, to: real)
    requires call.limit >= 1 && from <= call.now < to
    ensures HitsAfter([call], call.key) == [call.now] && CountIn(Admitted([call], call.key), from, to) == 1
  {
    AdmitsOneMore([], call, [], from, to);
    assert [] + [call] == [call] && [] + [call.now] == [call.now];
  }

  lemma TwoAdmitted(a: Call, b: Call)
    requires a == Call(b.key, 2, 10.0, 0.0) && b == Call(b.key, 2, 10.0, 1.0)
    ensures HitsAfter([a] + [b], b.key) == [0.0] + [1.0] && CountIn(Admitted([a] + [b], b.key), 0.0, 10.0) == 2
  {
    OneAdmitted(a, 0.0, 10.0);
    RecentOfOne(0.0, 10.0, 1.0);
    AdmitsOneMore([a], b, [0.0], 0.0, 10.0);
  }

  lemma ThirdForgetsTwo(calls: seq<Call>, c: Call)
    requires c.limit == 2 && c.window == 10.0 && c.now == 11.0 && HitsAfter(calls, c.key) == [0.0] + [1.0]
    ensures HitsAfter(calls + [c], c.key) == [11.0]
    ensures CountIn(Admitted(calls + [c], c.key), 0.0, 10.0) == CountIn(Admitted(calls, c.key), 0.0, 10.0)
  {
    RecentOfTwo(0.0, 1.0, 10.0, 11.0);
    AdmitsOneMore(calls, c, [], 0.0, 10.0);
    assert [] + [11.0] == [11.0];
  }

  lemma FourthIsAdmitted(calls: seq<Call>, d: Call)
    requires d.limit == 2 && d.window == 10.0 && d.now == 9.0 && HitsAfter(calls, d.key) == [11.0]
    ensures CountIn(Admitted(calls + [d], d.key), 0.0, 10.0) == CountIn(Admitted(calls, d.key), 0.0, 10.0) + 1
  {
    RecentOfOne(11.0, 10.0, 9.0);
    AdmitsOneMore(calls, d, [11.0], 0.0, 10.0);
  }

  /** The time is read before the lock is taken, so calls may get the lock out of time order.
      Then an interval can hold more than the limit: with a limit of two in ten seconds, the
      calls of times 0, 1, 11 and then 9 are all admitted. */
  lemma LateLockBreaksTheLimit(key: Key) returns (calls: seq<Call>)
    ensures |calls| == 4 && forall i :: 0 <= i < |calls| ==> calls[i] == Call(key, 2, 10.0, calls[i].now)
    ensures calls[0].now == 0.0 && calls[1].now == 1.0 && calls[2].now == 11.0 && calls[3].now == 9.0
    ensures CountIn(Admitted(calls, key), 0.0, 10.0) == 3
  {
    var a, b, c, d := Call(key, 2, 10.0, 0.0), Call(key, 2, 10.0, 1.0), Call(key, 2, 10.0, 11.0),
      Call(key, 2, 10.0, 9.0);
    TwoAdmitted(a, b);
    ThirdForgetsTwo([a] + [b], c);
    FourthIsAdmitted([a] + [b] + [c], d);
    calls := [a, b, c, d];
    assert calls == [a] + [b] + [c] + [d];
  }

  // ---- a limit of one needs no order

  ghost predicate SameSettings(calls: seq<Call>, key: Key, limit: int, window: real) {
    forall i :: 0 <= i < |calls| && calls[i].key == key ==> calls[i].limit == limit && calls[i].window == window
  }

  /** Admitted times rise by a whole window each. */
  ghost predicate FarApart(times: seq<real>, window: real) {
    forall i, j :: 0 <= i < j < |times| ==> times[i] + window <= times[j]
  }

  function LastOf(times: seq<real>): seq<real> {
    if times == [] then [] else [times[|times| - 1]]
  }

  lemma LatestRecent(times: seq<real>, window: real, now: real)
    ensures Recent(LastOf(times), window, now)
            == if times != [] && now - times[|times| - 1] < window then LastOf(times) else []
  {
    if times != [] { RecentOfOne(times[|times| - 1], window, now); }
  }

  lemma FartherStill(times: seq<real>, window: real, time: real)
    requires window > 0.0 && FarApart(times, window)
    requires times == [] || time - times[|times| - 1] >= window
    ensures FarApart(times + [time], window) && LastOf(times + [time]) == [time]
  {
  }

  lemma LimitOneStep(calls: seq<Call>, call: Call)
    requires call.window > 0.0 && call.limit == 1
    requires HitsAfter(calls, call.key) == LastOf(Admitted(calls, call.key))
             && FarApart(Admitted(calls, call.key), call.window)
    ensures HitsAfter(calls + [call], call.key) == LastOf(Admitted(calls + [call], call.key))
    ensures FarApart(Admitted(calls + [call], call.key), call.window)
  {
    var times := Admitted(calls, call.key);
    LatestRecent(times, call.window, call.now);
    AfterOneMore(calls, call);
    if times == [] || call.now - times[|times| - 1] >= call.window {
      FartherStill(times, call.window, call.now);
    }
  }

  lemma OtherKeyAdmittedAfterOneMore(calls: seq<Call>, call: Call, key: Key)
    requires key != call.key
    ensures Admitted(calls + [call], key) == Admitted(calls, key)
  {
  }

  /** With a limit of one just the latest admitted time is stored, in whatever order calls come. */
  lemma {:induction false} LimitOneKeepsLatest(calls: seq<Call>, key: Key, window: real)
    requires window > 0.0 && SameSettings(calls, key, 1, window)
    ensures FarApart(Admitted(calls, key), window) && HitsAfter(calls, key) == LastOf(Admitted(calls, key))
    decreases |calls|
  {
    if calls != [] {
      var front, call := calls[..|calls| - 1], calls[|calls| - 1];
      LimitOneKeepsLatest(front, key, window);
      assert calls == front + [call];
      if call.key == key {
        LimitOneStep(front, call);
      } else {
        OtherKeyAfterOneMore(front, call, key);
        OtherKeyAdmittedAfterOneMore(front, call, key);
      }
    }
  }

  lemma {:induction false} NothingBefore(times: seq<real>, from: real, to: real)
    requires forall i :: 0 <= i < |times| ==> times[i] < from
    ensures CountIn(times, from, to) == 0
    decreases |times|
  {
    if times != [] { NothingBefore(times[..|times| - 1], from, to); }
  }

  lemma {:induction false} FarApartCount(times: seq<real>, window: real, from: real, to: real)
    requires FarApart(times, window) && to <= from + window
    ensures CountIn(times, from, to) <= 1
    decreases |times|
  {
    if times != [] {
      var front, last := times[..|times| - 1], times[|times| - 1];
      if from <= last < to {
        NothingBefore(front, from, to);
      } else {
        FarApartCount(front, window, from, to);
      }
    }
  }

  lemma {:induction false} NothingAdmitted(calls: seq<Call>, key: Key, limit: int, window: real)
    requires limit <= 0 && SameSettings(calls, key, limit, window)
    ensures Admitted(calls, key) == []
    decreases |calls|
  {
    if calls != [] { NothingAdmitted(calls[..|calls| - 1], key, limit, window); }
  }

  lemma {:induction false} EmptyInterval(times: seq<real>, from: real, to: real)
    requires to <= from
    ensures CountIn(times, from, to) == 0
    decreases |times|
  {
    if times != [] { EmptyInterval(times[..|times| - 1], from, to); }
  }

  /** In whatever order the calls get the lock, a limit of one is kept in every interval of the
      window's length, and a limit of none or less admits nothing. */
  lemma LimitOneNeedsNoOrder(calls: seq<Call>, key: Key, limit: int, window: real, from: real)
    requires limit <= 1 && SameSettings(calls, key, limit, window)
    ensures CountIn(Admitted(calls, key), from, from + window) <= Max0(limit)
  {
    if limit <= 0 {
      NothingAdmitted(calls, key, limit, window);
    } else if window > 0.0 {
      LimitOneKeepsLatest(calls, key, window);
      FarApartCount(Admitted(calls, key), window, from, from + window);
    } else {
      EmptyInterval(Admitted(calls, key), from, from + window);
    }
  }

  // ---- how long an interval may be

  lemma {:induction false} CountIsMonotone(times: seq<real>, from: real, to: real, later: real)
    requires to <= later
    ensures CountIn(times, from, to) <= CountIn(times, from, later)
    decreases |times|
  {
    if times != [] { CountIsMonotone(times[..|times| - 1], from, to, later); }
  }

  function Repeat<T>(x: T, n: nat): seq<T> {
    if n == 0 then [] else Repeat(x, n - 1) + [x]
  }

  lemma {:induction false} RepeatFacts<T>(x: T, n: nat)
    ensures |Repeat(x, n)| == n && forall i :: 0 <= i < n ==> Repeat(x, n)[i] == x
    decreases n
  {
    if n > 0 { RepeatFacts(x, n - 1); }
  }

  lemma RepeatExtends<T>(s: seq<T>, x: T, n: nat)
    ensures s + Repeat(x, n + 1) == (s + Repeat(x, n)) + [x] && s + Repeat(x, 0) == s
  {
  }

  lemma {:induction false} RecentOfRepeat(kept: seq<real>, time: real, n: nat, window: real, now: real)
    ensures Recent(kept + Repeat(time, n), window, now)
            == Recent(kept, window, now) + if now - time < window then Repeat(time, n) else []
    decreases n
  {
    if n == 0 {
      RepeatExtends(kept, time, 0);
    } else {
      var before := kept + Repeat(time, n - 1);
      RecentOfRepeat(kept, time, n - 1, window, now);
      RepeatExtends(kept, time, n - 1);
      RecentOfExtended(before, window, now, time);
      RepeatExtends(Recent(kept, window, now), time, n - 1);
    }
  }

  /** What `calls` left: the stored hits, and how many admitted calls lie in an interval. */
  ghost predicate Left(calls: seq<Call>, key: Key, hits: seq<real>, from: real, to: real, count: nat) {
    HitsAfter(calls, key) == hits && CountIn(Admitted(calls, key), from, to) == count
  }

  lemma FillsOneMore(calls: seq<Call>, call: Call, hits: seq<real>, from: real, to: real, count: nat)
    requires |hits| < call.limit && Recent(hits, call.window, call.now) == hits && from <= call.now < to
    requires Left(calls, call.key, hits, from, to, count)
    ensures Left(calls + [call], call.key, hits + [call.now], from, to, count + 1)
  {
    AdmitsOneMore(calls, call, hits, from, to);
  }

  lemma StaysRecent(kept: seq<real>, time: real, n: nat, window: real)
    requires window > 0.0 && Recent(kept, window, time) == kept
    ensures var hits := kept + Repeat(time, n);
            Recent(hits, window, time) == hits && |hits| == |kept| + n
  {
    RecentOfRepeat(kept, time, n, window, time);
    RepeatFacts(time, n);
  }

  /** Up to the limit, calls at one moment are all admitted. */
  lemma {:induction false} FillsUp(calls: seq<Call>, call: Call, n: nat, kept: seq<real>, from: real, to: real,
                                   count: nat)
    requires call.window > 0.0 && from <= call.now < to && |kept| + n <= call.limit
    requires Left(calls, call.key, kept, from, to, count) && Recent(kept, call.window, call.now) == kept
    ensures Left(calls + Repeat(call, n), call.key, kept + Repeat(call.now, n), from, to, count + n)
    decreases n
  {
    if n == 0 {
      RepeatExtends(calls, call, 0);
      RepeatExtends(kept, call.now, 0);
    } else {
      FillsUp(calls, call, n - 1, kept, from, to, count);
      StaysRecent(kept, call.now, n - 1, call.window);
      FillsOneMore(calls + Repeat(call, n - 1), call, kept + Repeat(call.now, n - 1), from, to, count + n - 1);
      RepeatExtends(calls, call, n - 1);
      RepeatExtends(kept, call.now, n - 1);
    }
  }

  /** `limit` calls at 0, and one a window later, which makes all of them forgotten. */
  lemma FullThenLater(key: Key, limit: nat, window: real, to: real) returns (calls: seq<Call>)
    requires limit >= 1 && window > 0.0 && 0.0 < to
    ensures calls == Repeat(Call(key, limit, window, 0.0), limit) + [Call(key, limit, window, window)]
    ensures HitsAfter(calls, key) == [window]
    ensures CountIn(Admitted(calls, key), 0.0, to) == limit + if window < to then 1 else 0
  {
    var first, later := Call(key, limit, window, 0.0), Call(key, limit, window, window);
    FillsUp([], first, limit, [], 0.0, to, 0);
    assert [] + Repeat(first, limit) == Repeat(first, limit) && [] + Repeat(0.0, limit) == Repeat(0.0, limit);
    RecentOfRepeat([], 0.0, limit, window, window);
    AdmitsOneMore(Repeat(first, limit), later, [], 0.0, to);
    assert [] + [window] == [window];
    calls := Repeat(first, limit) + [later];
  }

  /** Then limit - 1 calls that read the clock up to `late` before that. */
  lemma LateCallsBreakTheLimit(key: Key, limit: nat, window: real, late: real, to: real) returns (calls: seq<Call>)
    requires limit >= 2 && 0.0 <= late <= window && window > 0.0 && window - late < to
    ensures NearlySteady(calls, key, limit, window, late) && CountIn(Admitted(calls, key), 0.0, to) > limit
  {
    var before := FullThenLater(key, limit, window, to);
    var last := Call(key, limit, window, window - late);
    RecentOfOne(window, window, window - late);
    FillsUp(before, last, limit - 1, [window], 0.0, to, CountIn(Admitted(before, key), 0.0, to));
    calls := before + Repeat(last, limit - 1);
    LateCallsNearlySteady(key, limit, window, late);
  }

  lemma LateCallsNearlySteady(key: Key, limit: nat, window: real, late: real)
    requires limit >= 2 && 0.0 <= late <= window
    ensures var first, later, last :=
              Call(key, limit, window, 0.0), Call(key, limit, window, window), Call(key, limit, window, window - late);
            NearlySteady(Repeat(first, limit) + [later] + Repeat(last, limit - 1), key, limit, window, late)
  {
    RepeatFacts(Call(key, limit, window, 0.0), limit);
    RepeatFacts(Call(key, limit, window, window - late), limit - 1);
  }

  lemma NearlySteadyMonotone(calls: seq<Call>, key: Key, limit: int, window: real, late: real, later: real)
    requires late <= later && NearlySteady(calls, key, limit, window, late)
    ensures NearlySteady(calls, key, limit, window, later)
  {
  }

  lemma TwoOfLimitOne(key: Key, window: real, late: real, to: real) returns (calls: seq<Call>)
    requires 0.0 < window < to && late >= 0.0
    ensures NearlySteady(calls, key, 1, window, late) && CountIn(Admitted(calls, key), 0.0, to) > 1
  {
    calls := FullThenLater(key, 1, window, to);
    RepeatFacts(Call(key, 1, window, 0.0), 1);
  }

  /** Without a window nothing is remembered. */
  lemma {:induction false} NothingRemembered(key: Key, limit: nat, window: real, late: real, to: real, n: nat)
    returns (calls: seq<Call>)
    requires limit >= 1 && window <= 0.0 && 0.0 < to && late >= 0.0
    ensures calls == Repeat(Call(key, limit, window, 0.0), n) && CountIn(Admitted(calls, key), 0.0, to) == n
    ensures n > 0 ==> HitsAfter(calls, key) == [0.0]
    ensures n == 0 ==> HitsAfter(calls, key) == []
    decreases n
  {
    if n == 0 {
      calls := [];
    } else {
      var before := NothingRemembered(key, limit, window, late, to, n - 1);
      RecentOfOne(0.0, window, 0.0);
      AdmitsOneMore(before, Call(key, limit, window, 0.0), [], 0.0, to);
      assert [] + [0.0] == [0.0];
      calls := before + [Call(key, limit, window, 0.0)];
    }
  }

  /** No interval of this length ever holds more than the limit. */
  ghost predicate LengthIsSafe(limit: int, window: real, late: real, length: real) {
    forall calls, key, from :: NearlySteady(calls, key, limit, window, late) ==>
      KeepsLimit(calls, key, limit, from, length)
  }

  predicate KeepsLimit(calls: seq<Call>, key: Key, limit: int, from: real, length: real) {
    CountIn(Admitted(calls, key), from, from + length) <= Max0(limit)
  }

  lemma SomeBreakTheLimit(key: Key, limit: int, window: real, late: real, length: real) returns (calls: seq<Call>)
    requires late >= 0.0 && limit >= 1 && length > 0.0 && length > window - late && (limit == 1 ==> length > window)
    ensures NearlySteady(calls, key, limit, window, late) && CountIn(Admitted(calls, key), 0.0, length) > limit
  {
    if window <= 0.0 {
      calls := NothingRemembered(key, limit, window, late, length, limit + 1);
      RepeatFacts(Call(key, limit, window, 0.0), limit + 1);
    } else if limit == 1 {
      calls := TwoOfLimitOne(key, window, late, length);
    } else {
      var l := if late <= window then late else window;
      calls := LateCallsBreakTheLimit(key, limit, window, l, length);
      NearlySteadyMonotone(calls, key, limit, window, l, late);
    }
  }

  lemma SafeLengths(calls: seq<Call>, key: Key, limit: int, window: real, late: real, from: real, length: real)
    requires late >= 0.0 && NearlySteady(calls, key, limit, window, late)
    requires limit <= 0 || length <= 0.0 || length <= window - late || (limit == 1 && length <= window)
    ensures CountIn(Admitted(calls, key), from, from + length) <= Max0(limit)
  {
    if limit <= 0 {
      NothingAdmitted(calls, key, limit, window);
    } else if length <= 0.0 {
      EmptyInterval(Admitted(calls, key), from, from + length);
    } else if length <= window - late {
      LateWindowsHoldAtMostLimit(calls, key, limit, window, late, from);
      CountIsMonotone(Admitted(calls, key), from, from + length, from + window - late);
    } else {
      LimitOneNeedsNoOrder(calls, key, limit, window, from);
      CountIsMonotone(Admitted(calls, key), from, from + length, from + window);
    }
  }

  /** With calls up to `late` out of order: the limit is kept in every interval of some length
      exactly if it is no longer than the window less `late`, or for a limit of one, than the
      window. */
  lemma LateBoundIsExact(limit: int, window: real, late: real, length: real)
    requires late >= 0.0
    ensures LengthIsSafe(limit, window, late, length)
            <==> limit <= 0 || length <= 0.0 || length <= window - late || (limit == 1 && length <= window)
  {
    if limit <= 0 || length <= 0.0 || length <= window - late || (limit == 1 && length <= window) {
      forall calls, key, from | NearlySteady(calls, key, limit, window, late)
        ensures KeepsLimit(calls, key, limit, from, length)
      {
        SafeLengths(calls, key, limit, window, late, from, length);
      }
    } else {
      var calls := SomeBreakTheLimit("", limit, window, late, length);
      assert !KeepsLimit(calls, "", limit, 0.0, length);
    }
  }
}
