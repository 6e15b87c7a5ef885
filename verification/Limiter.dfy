/** RateLimiter: a window per client, opened by its first request after the last one has passed. */
module Limiter {
  import opened Binary
  import opened Options

  datatype Info = Info(count: nat, windowStart: int)
  datatype Config = Config(limit: int, window: nat)

  /** allow for one client: the decision, and what is remembered. */
  function Decide(c: Config, info: Option<Info>, now: int): (bool, Option<Info>)
  {
    if info.None? || now - info.value.windowStart > c.window then (true, Some(Info(1, now)))
    else if info.value.count >= c.limit then (false, info)
    else (true, Some(info.value.(count := info.value.count + 1)))
  }

  /** cleanup keeps this entry. */
  predicate Keeps(c: Config, info: Info, now: int)
  {
    now - info.windowStart <= 2 * c.window
  }

  class RateLimiter {
    const config: Config
    var requests: map<Bytes, Info>

    constructor (config: Config)
      ensures this.config == config && requests == map[]
    {
      this.config := config;
      requests := map[];
    }

    method Allow(client: Bytes, now: int) returns (ok: bool)
      modifies this
      ensures var (decision, info) := Decide(config, Remembered(old(requests), client), now);
        ok == decision && info.Some? && requests == old(requests)[client := info.value]
    {
      if client !in requests || now - requests[client].windowStart > config.window {
        requests := requests[client := Info(1, now)];
        return true;
      }
      var info := requests[client];
      if info.count >= config.limit {
        assert requests == requests[client := info];
        return false;
      }
      requests := requests[client := info.(count := info.count + 1)];
      return true;
    }

    method Cleanup(now: int)
      modifies this
      ensures requests == Cleaned(config, old(requests), now)
      ensures forall k :: k in requests <==>
        k in old(requests) && now - old(requests)[k].windowStart <= 2 * config.window
    {
      var pending := requests.Keys;
      while pending != {}
        invariant pending <= requests.Keys && pending <= old(requests).Keys
        invariant requests.Keys == pending + Cleaned(config, old(requests), now).Keys
        invariant forall k <- requests :: requests[k] == old(requests)[k]
        decreases pending
      {
        var client :| client in pending;
        if now - requests[client].windowStart > config.window * 2 {
          requests := requests - {client};
        }
        pending := pending - {client};
      }
    }
  }

  function Remembered(requests: map<Bytes, Info>, client: Bytes): Option<Info>
  {
    if client in requests then Some(requests[client]) else None
  }

  function Cleaned(c: Config, requests: map<Bytes, Info>, now: int): map<Bytes, Info>
  {
    map k | k in requests && Keeps(c, requests[k], now) :: requests[k]
  }

  // ---------- runs of many clients with cleanup ticks

  datatype Event = Request(client: Bytes, at: int) | Tick(at: int)

  function Step(c: Config, requests: map<Bytes, Info>, e: Event): map<Bytes, Info>
  {
    match e
    case Request(client, at) => requests[client := Decide(c, Remembered(requests, client), at).1.value]
    case Tick(at) => Cleaned(c, requests, at)
  }

  /** The decisions on one client's requests in a run of everybody's. */
  function DecisionsOn(c: Config, requests: map<Bytes, Info>, events: seq<Event>, client: Bytes): seq<bool>
    decreases |events|
  {
    if events == [] then []
    else
      var rest := DecisionsOn(c, Step(c, requests, events[0]), events[1..], client);
      if events[0].Request? && events[0].client == client
      then [Decide(c, Remembered(requests, client), events[0].at).0] + rest
      else rest
  }

  /** When one client's requests come. */
  function TimesOf(events: seq<Event>, client: Bytes): seq<int>
    decreases |events|
  {
    if events == [] then []
    else if events[0].Request? && events[0].client == client then [events[0].at] + TimesOf(events[1..], client)
    else TimesOf(events[1..], client)
  }

  /** The decisions if the client were alone and nothing ever cleaned up. */
  function Alone(c: Config, info: Option<Info>, times: seq<int>): (r: seq<bool>)
    ensures |r| == |times|
    decreases |times|
  {
    if times == [] then []
    else
      var (ok, next) := Decide(c, info, times[0]);
      [ok] + Alone(c, next, times[1..])
  }

  predicate Ordered(events: seq<Event>)
  {
    forall i, j | 0 <= i < j < |events| :: events[i].at <= events[j].at
  }

  /** From now on the two are decided alike: equal, or one is gone and the other's window has passed. */
  predicate Alike(c: Config, a: Option<Info>, b: Option<Info>, now: int)
  {
    a == b || (a.None? && b.Some? && now - b.value.windowStart > c.window)
  }

  lemma {:induction false} DecidedAlike(
    c: Config, requests: map<Bytes, Info>, events: seq<Event>, client: Bytes, info: Option<Info>, now: int)
    requires Ordered(events) && (forall e <- events :: now <= e.at) && Alike(c, Remembered(requests, client), info, now)
    ensures DecisionsOn(c, requests, events, client) == Alone(c, info, TimesOf(events, client))
    decreases |events|
  {
    if events != [] {
      var e := events[0];
      var next := Step(c, requests, e);
      assert forall x <- events[1..] :: x in events;
      if e.Request? && e.client == client {
        DecidedAlike(c, next, events[1..], client, Decide(c, info, e.at).1, e.at);
        assert ([e.at] + TimesOf(events[1..], client))[1..] == TimesOf(events[1..], client);
      } else {
        DecidedAlike(c, next, events[1..], client, info, e.at);
      }
    }
  }

  /** Other clients and cleanup ticks, wherever they come, change no decision. */
  lemma {:induction false} ClientsIndependent(c: Config, events: seq<Event>, client: Bytes)
    requires Ordered(events)
    ensures DecisionsOn(c, map[], events, client) == Alone(c, None, TimesOf(events, client))
  {
    if events != [] {
      DecidedAlike(c, map[], events, client, None, events[0].at);
    }
  }

  lemma {:induction false} TimesOrdered(events: seq<Event>, client: Bytes, start: int)
    requires Ordered(events) && (events != [] ==> start <= events[0].at)
    ensures Rising(TimesOf(events, client)) && NotBefore(TimesOf(events, client), start)
    decreases |events|
  {
    if events != [] {
      TimesOrdered(events[1..], client, events[0].at);
    }
  }

  // ---------- how many are allowed

  predicate Rising(times: seq<int>)
  {
    forall i, j | 0 <= i < j < |times| :: times[i] <= times[j]
  }

  predicate NotBefore(times: seq<int>, start: int)
  {
    forall i | 0 <= i < |times| :: start <= times[i]
  }

  /** Requests allowed at times from a to b. */
  function Allowed(decisions: seq<bool>, times: seq<int>, a: int, b: int): nat
    requires |decisions| == |times|
  {
    if times == [] then 0
    else (if decisions[0] && a <= times[0] <= b then 1 else 0) + Allowed(decisions[1..], times[1..], a, b)
  }

  function AllowedIn(c: Config, info: Option<Info>, times: seq<int>, a: int, b: int): nat
  {
    Allowed(Alone(c, info, times), times, a, b)
  }

  lemma AllowedStep(c: Config, info: Option<Info>, times: seq<int>, a: int, b: int)
    requires times != []
    ensures var (ok, next) := Decide(c, info, times[0]);
      AllowedIn(c, info, times, a, b) ==
      (if ok && a <= times[0] <= b then 1 else 0) + AllowedIn(c, next, times[1..], a, b)
  {}

  /** What a window lets through: its first request even if the limit is 0. */
  function Cap(c: Config): int
  {
    if c.limit < 1 then 1 else c.limit
  }

  /**
   What can still be allowed from a to a + window: the rest of the present window, and all of the next
   one if the present one was opened before a. A third cannot open in time. A window of length 0 that was
   opened before a has passed.
   */
  function Left(c: Config, info: Info, a: int): int
  {
    var rest := if info.count >= Cap(c) then 0 else Cap(c) - info.count;
    if info.windowStart >= a then rest else Cap(c) + if c.window == 0 then 0 else rest
  }

  /** The most that one closed interval as long as the window can let through. */
  function Most(c: Config): int
  {
    if c.window == 0 then Cap(c) else 2 * Cap(c) - 1
  }

  lemma {:induction false} AllowedFrom(c: Config, info: Info, times: seq<int>, a: int)
    requires info.count >= 1 && Rising(times) && NotBefore(times, a)
    ensures AllowedIn(c, Some(info), times, a, a + c.window) <= Left(c, info, a)
    decreases |times|
  {
    if times != [] {
      RisingTail(times);
      AllowedStep(c, Some(info), times, a, a + c.window);
      if times[0] > a + c.window {
        NoneAfter(c, Decide(c, Some(info), times[0]).1, times[1..], a, a + c.window);
      } else {
        AllowedFrom(c, Decide(c, Some(info), times[0]).1.value, times[1..], a);
      }
    }
  }

  lemma RisingTail(times: seq<int>)
    requires Rising(times) && times != []
    ensures Rising(times[1..]) && NotBefore(times[1..], times[0])
  {}

  lemma {:induction false} AllowedBounded(c: Config, info: Option<Info>, times: seq<int>, a: int)
    requires Rising(times) && (info.Some? ==> info.value.count >= 1)
    ensures AllowedIn(c, info, times, a, a + c.window) <= Most(c)
    decreases |times|
  {
    if times != [] {
      RisingTail(times);
      AllowedStep(c, info, times, a, a + c.window);
      var next := Decide(c, info, times[0]).1;
      if times[0] < a {
        AllowedBounded(c, next, times[1..], a);
      } else if info.Some? {
        AllowedFrom(c, info.value, times, a);
      } else if times[0] <= a + c.window {
        AllowedFrom(c, next.value, times[1..], a);
      } else {
        NoneAfter(c, next, times[1..], a, a + c.window);
      }
    }
  }

  /**
   No closed interval as long as the window contains more than 2 * limit - 1 allowed requests of one
   client, or limit of them if the window is 0, whatever the others and the cleanup ticks do; a limit below
   1 counts as 1.
   */
  lemma AtMostTwiceTheLimit(c: Config, events: seq<Event>, client: Bytes, a: int)
    requires Ordered(events)
    ensures var times, decisions := TimesOf(events, client), DecisionsOn(c, map[], events, client);
      |decisions| == |times| && Allowed(decisions, times, a, a + c.window) <= Most(c)
  {
    ClientsIndependent(c, events, client);
    if events != [] {
      TimesOrdered(events, client, events[0].at);
    }
    AllowedBounded(c, None, TimesOf(events, client), a);
  }

  lemma {:induction false} NoneAfter(c: Config, info: Option<Info>, times: seq<int>, a: int, b: int)
    requires NotBefore(times, b + 1)
    ensures AllowedIn(c, info, times, a, b) == 0
    decreases |times|
  {
    if times != [] {
      AllowedStep(c, info, times, a, b);
      NoneAfter(c, Decide(c, info, times[0]).1, times[1..], a, b);
    }
  }

  // ---------- exactly which are allowed

  /** The request that opened the window request i falls into: a new window opens when the last has passed. */
  function Opener(times: seq<int>, window: nat, i: nat): (o: nat)
    requires i < |times|
    ensures o <= i && (o < i ==> times[i] - times[o] <= window)
  {
    if i == 0 then 0
    else
      var o := Opener(times, window, i - 1);
      if times[i] - times[o] > window then i else o
  }

  /** What is remembered before request i of a client that is alone. */
  function Before(c: Config, info: Option<Info>, times: seq<int>, i: nat): Option<Info>
    requires i <= |times|
  {
    if i == 0 then info else Decide(c, Before(c, info, times, i - 1), times[i - 1]).1
  }

  lemma {:induction false} AloneAt(c: Config, info: Option<Info>, times: seq<int>, i: nat)
    requires i < |times|
    ensures Alone(c, info, times)[i] == Decide(c, Before(c, info, times, i), times[i]).0
    decreases i
  {
    hide Decide;
    if i > 0 {
      AloneAt(c, Decide(c, info, times[0]).1, times[1..], i - 1);
      BeforeTail(c, info, times, i);
    }
  }

  lemma {:induction false} BeforeTail(c: Config, info: Option<Info>, times: seq<int>, i: nat)
    requires 0 < i <= |times|
    ensures Before(c, info, times, i) == Before(c, Decide(c, info, times[0]).1, times[1..], i - 1)
  {
    hide Decide;
    if i > 1 {
      BeforeTail(c, info, times, i - 1);
    }
  }

  /** The window remembered is the opener's, with the requests counted since, as far as there was room. */
  lemma {:induction false} Remembers(c: Config, times: seq<int>, i: nat)
    requires 0 < i <= |times|
    ensures var o := Opener(times, c.window, i - 1);
      Before(c, None, times, i) == Some(Info(if i - o < Cap(c) then i - o else Cap(c), times[o]))
  {
    if i > 1 {
      Remembers(c, times, i - 1);
    }
  }

  /**
   In every run, whatever the others and the cleanup ticks do, request i of a client is allowed exactly
   when fewer than limit of its requests have come since the window was opened; a limit below 1 counts as 1.
   */
  lemma {:induction false} AllowedIff(c: Config, events: seq<Event>, client: Bytes, i: nat)
    requires Ordered(events) && i < |TimesOf(events, client)|
    ensures var times, decisions := TimesOf(events, client), DecisionsOn(c, map[], events, client);
      && |decisions| == |times|
      && (decisions[i] <==> i - Opener(times, c.window, i) < if c.limit < 1 then 1 else c.limit)
  {
    ClientsIndependent(c, events, client);
    var times := TimesOf(events, client);
    AloneAt(c, None, times, i);
    if i > 0 {
      Remembers(c, times, i);
    }
  }

  lemma AllowedSince(c: Config, events: seq<Event>, client: Bytes, i: nat, j: nat)
    requires Ordered(events) && i < |TimesOf(events, client)|
    requires var o := Opener(TimesOf(events, client), c.window, i); o <= j <= i && j < o + Cap(c)
    ensures var times, decisions := TimesOf(events, client), DecisionsOn(c, map[], events, client);
      |decisions| == |times| && decisions[j] && times[i] - c.window <= times[j] <= times[i]
  {
    RisingTimes(events, client);
    SinceOpener(TimesOf(events, client), c.window, i, j);
    hide Ordered, TimesOf, DecisionsOn, Opener, Rising;
    AllowedIff(c, events, client, j);
  }

  lemma SinceOpener(times: seq<int>, window: nat, i: nat, j: nat)
    requires Rising(times) && i < |times| && Opener(times, window, i) <= j <= i
    ensures Opener(times, window, j) == Opener(times, window, i) && times[i] - window <= times[j] <= times[i]
  {
    SameOpener(times, window, j, i);
  }

  lemma RisingTimes(events: seq<Event>, client: Bytes)
    requires Ordered(events)
    ensures Rising(TimesOf(events, client))
  {
    if events != [] {
      TimesOrdered(events, client, events[0].at);
    }
  }

  /** Nobody is refused who has not just used up the limit, within the window before the refusal. */
  lemma {:induction false} RefusedWhenFull(c: Config, events: seq<Event>, client: Bytes, i: nat)
    requires Ordered(events) && i < |TimesOf(events, client)|
    ensures var times, decisions := TimesOf(events, client), DecisionsOn(c, map[], events, client);
      && |decisions| == |times|
      && (!decisions[i] ==>
            Allowed(decisions, times, times[i] - c.window, times[i]) >= if c.limit < 1 then 1 else c.limit)
  {
    var times, decisions := TimesOf(events, client), DecisionsOn(c, map[], events, client);
    AllowedIff(c, events, client, i);
    if !decisions[i] {
      var o := Opener(times, c.window, i);
      forall j | o <= j < o + Cap(c) ensures decisions[j] && times[i] - c.window <= times[j] <= times[i] {
        AllowedSince(c, events, client, i, j);
      }
      hide Ordered, TimesOf, DecisionsOn, Opener, Allowed;
      AllowedAtLeast(decisions, times, times[i] - c.window, times[i], o, Cap(c));
    }
  }

  lemma {:induction false} SameOpener(times: seq<int>, window: nat, j: nat, i: nat)
    requires i < |times| && Opener(times, window, i) <= j <= i
    ensures Opener(times, window, j) == Opener(times, window, i)
    decreases i - j
  {
    if j < i {
      SameOpener(times, window, j, i - 1);
    }
  }

  lemma {:induction false} AllowedAtLeast(decisions: seq<bool>, times: seq<int>, a: int, b: int, o: nat, n: nat)
    requires |decisions| == |times| && o + n <= |times|
    requires forall j | o <= j < o + n :: decisions[j] && a <= times[j] <= b
    ensures Allowed(decisions, times, a, b) >= n
    decreases |times|
  {
    if times != [] {
      var (o', n') := if o > 0 then (o - 1, n) else (0, if n == 0 then 0 else n - 1);
      AllowedAtLeast(decisions[1..], times[1..], a, b, o', n');
    }
  }

  function Times(n: nat, t: int): seq<int>
  {
    seq(n, _ => t)
  }

  lemma {:induction false} AllAllowed(c: Config, info: Info, n: nat, t: int, more: seq<int>, a: int, b: int)
    requires info.count >= 1 && info.count + n <= Cap(c) && t - info.windowStart <= c.window
    ensures AllowedIn(c, Some(info), Times(n, t) + more, a, b) ==
      (if a <= t <= b then n else 0) + AllowedIn(c, Some(info.(count := info.count + n)), more, a, b)
    decreases n
  {
    var times := Times(n, t) + more;
    if n == 0 {
      assert times == more;
    } else {
      assert times[0] == t && times[1..] == Times(n - 1, t) + more;
      AllowedStep(c, Some(info), times, a, b);
      AllAllowed(c, info.(count := info.count + 1), n - 1, t, more, a, b);
    }
  }

  /** One request, late ones in its window, and a full window right after it. */
  function Worst(c: Config): seq<int>
  {
    [0] + (Times(Cap(c) - 1, c.window) + ([c.window + 1] + (Times(Cap(c) - 1, c.window + 1) + [])))
  }

  /** The bound is reached for every limit and window. */
  lemma BoundReached(c: Config)
    ensures Rising(Worst(c)) && AllowedIn(c, None, Worst(c), 1, 1 + c.window) == Most(c)
  {
    var w, n := c.window, Cap(c) - 1;
    var last := [w + 1] + (Times(n, w + 1) + []);
    hide Times, AllowedIn;
    AllAllowed(c, Info(1, w + 1), n, w + 1, [], 1, 1 + w);
    AllowedNone(c, Some(Info(n + 1, w + 1)), 1, 1 + w);
    AllowedStep(c, Some(Info(n + 1, 0)), last, 1, 1 + w);
    assert last[1..] == Times(n, w + 1) + [];
    AllAllowed(c, Info(1, 0), n, w, last, 1, 1 + w);
    AllowedStep(c, None, Worst(c), 1, 1 + w);
    assert Worst(c)[1..] == Times(n, w) + last;
    WorstRises(c);
  }

  lemma AllowedNone(c: Config, info: Option<Info>, a: int, b: int)
    ensures AllowedIn(c, info, [], a, b) == 0
  {}

  lemma WorstRises(c: Config)
    ensures Rising(Worst(c))
  {}
}
