/** Fixed-window rate limits: one counter key shared by HTTP guards and socket handlers, whose commands
    reach the store in any interleaving. The clock counts whole seconds. */
module RateLimit {
  import opened Sums
  import opened Wrappers

  datatype Role = User | Moderator | Admin | SuperAdmin

  /** The counter key: absent, or a count with an end once an expiry was set. */
  datatype Counter = Missing | Counting(count: nat, end: Option<int>)

  datatype Command = Incr(limit: int) | ExpireNx(ttl: int)

  datatype Event = Event(at: int, command: Command)

  /** The reply to an INCR: the call's place in its window. `window` numbers the lifetimes of the key. */
  datatype Hit = Hit(window: nat, position: nat, limit: int, at: int)

  datatype Store = Store(counter: Counter, window: nat, hits: seq<Hit>, ends: map<nat, int>)

  const EMPTY := Store(Missing, 0, [], map[])

  /** A call goes through when its reply is within its limit. */
  predicate Accepted(h: Hit) { h.position <= h.limit }

  function Live(c: Counter, at: int): Counter {
    if c.Counting? && c.end.Some? && c.end.value <= at then Missing else c
  }

  function Step(s: Store, e: Event): Store {
    var counter := Live(s.counter, e.at);
    match e.command
    case Incr(limit) =>
      var window := if counter.Missing? then s.window + 1 else s.window;
      var count := if counter.Missing? then 1 else counter.count + 1;
      var end := if counter.Missing? then None else counter.end;
      Store(Counting(count, end), window, s.hits + [Hit(window, count, limit, e.at)], s.ends)
    case ExpireNx(ttl) =>
      if counter.Counting? && counter.end.None?
      then s.(counter := counter.(end := Some(e.at + ttl)), ends := s.ends[s.window := e.at + ttl])
      else s.(counter := counter)
  }

  /** TTL: -2 without a key, -1 without an expiry, else the seconds left. */
  function Ttl(c: Counter, at: int): int {
    match Live(c, at)
    case Missing => -2
    case Counting(_, None) => -1
    case Counting(_, Some(end)) => end - at
  }

  function Run(s: Store, events: seq<Event>): Store {
    if events == [] then s else Step(Run(s, events[..|events| - 1]), events[|events| - 1])
  }

  predicate InClockOrder(events: seq<Event>) {
    forall i, j :: 0 <= i < j < |events| ==> events[i].at <= events[j].at
  }

  // ---- the callers ----

  /** Half the window for moderators, rounded up. */
  function EffectiveTtl(role: Role, ttl: int): (r: int)
    ensures role.Moderator? ==> 2 * (r - 1) < ttl <= 2 * r
    ensures !role.Moderator? ==> r == ttl
  {
    if role.Moderator? then (ttl + 1) / 2 else ttl
  }

  datatype Answer = Allowed | TooMany(retryAfter: int)

  /** The two commands of a limited call. */
  function CallEvents(role: Role, limit: int, ttl: int, at: int): seq<Event> {
    [Event(at, Incr(limit)), Event(at, ExpireNx(EffectiveTtl(role, ttl)))]
  }

  class RedisService {
    var counter: Counter
    ghost var window: nat
    ghost var hits: seq<Hit>
    ghost var ends: map<nat, int>

    ghost function Abstract(): Store
      reads this
    {
      Store(counter, window, hits, ends)
    }

    /** INCR and EXPIRE NX in one pipeline. */
    method IncrWithExpiry(ttl: int, at: int, ghost limit: int) returns (count: nat)
      modifies this
      ensures Abstract() == Run(old(Abstract()), [Event(at, Incr(limit)), Event(at, ExpireNx(ttl))])
      ensures |hits| > 0 && hits[|hits| - 1].position == count && hits[|hits| - 1].limit == limit
    {
      RunTwo(Abstract(), Event(at, Incr(limit)), Event(at, ExpireNx(ttl)));
      counter := Live(counter, at);
      if counter.Missing? {
        count := 1;
        counter, window := Counting(1, None), window + 1;
      } else {
        count := counter.count + 1;
        counter := counter.(count := count);
      }
      hits := hits + [Hit(window, count, limit, at)];
      counter := Live(counter, at);
      if counter.Counting? && counter.end.None? {
        counter := counter.(end := Some(at + ttl));
        ends := ends[window := at + ttl];
      }
    }
  }

  lemma RunTwo(s: Store, a: Event, b: Event)
    ensures Run(s, [a, b]) == Step(Step(s, a), b)
  {
    assert [a, b][..1] == [a] && [a][..0] == [];
    assert Run(s, [a]) == Step(s, a);
  }

  /** A limited call on the counter it found: the first of a new window when there was none or its end had
      come, and then it ends `seconds` later; otherwise one more in the window, whose end stays. It goes
      through within the limit and is otherwise told the seconds left. */
  predicate Counted(before: Counter, after: Counter, seconds: int, limit: int, at: int, answer: Answer) {
    && after.Counting? && after.end.Some?
    && (if before == Missing || (before.end != None && before.end.value <= at)
        then after.count == 1 && after.end.value == at + seconds
        else after.count == before.count + 1 && after.end.value == (if before.end == None then at + seconds else before.end.value))
    && answer == if after.count <= limit then Allowed else TooMany(after.end.value - at)
  }

  class Limiter {
    const redis: RedisService

    constructor (redis: RedisService)
      ensures this.redis == redis
    {
      this.redis := redis;
    }

    /** The guard of HTTP routes and, with the same key and rules, the check of socket handlers. */
    method CanActivate(role: Role, limit: int, ttl: int, at: int) returns (answer: Answer)
      modifies redis
      ensures role == Admin || role == SuperAdmin ==> answer == Allowed && redis.Abstract() == old(redis.Abstract())
      ensures role != Admin && role != SuperAdmin ==>
                && redis.Abstract() == Run(old(redis.Abstract()), CallEvents(role, limit, ttl, at))
                && redis.hits != []
                && answer == if Accepted(redis.hits[|redis.hits| - 1]) then Allowed else TooMany(Ttl(redis.counter, at))
      ensures role != Admin && role != SuperAdmin && ttl >= 1 ==>
                Counted(old(redis.counter), redis.counter, if role == Moderator then (ttl + 1) / 2 else ttl, limit, at, answer)
    {
      if role.Admin? || role.SuperAdmin? {
        return Allowed;
      }
      var effectiveTtl := if role.Moderator? then (ttl + 1) / 2 else ttl;
      RunTwo(redis.Abstract(), Event(at, Incr(limit)), Event(at, ExpireNx(effectiveTtl)));
      var count := redis.IncrWithExpiry(effectiveTtl, at, limit);
      if count > limit {
        return TooMany(Ttl(redis.counter, at));
      }
      return Allowed;
    }
  }

  // ---- what every run keeps ----

  function HitsIn(hits: seq<Hit>, window: nat): nat {
    if hits == [] then 0
    else HitsIn(hits[..|hits| - 1], window) + if hits[|hits| - 1].window == window then 1 else 0
  }

  function AcceptedIn(hits: seq<Hit>, window: nat): nat {
    if hits == [] then 0
    else
      var h := hits[|hits| - 1];
      AcceptedIn(hits[..|hits| - 1], window) + if h.window == window && Accepted(h) then 1 else 0
  }

  /** Each reply is the number of calls of its window so far. */
  ghost predicate Numbered(hits: seq<Hit>) {
    forall i :: 0 <= i < |hits| ==> hits[i].position == HitsIn(hits[..i + 1], hits[i].window)
  }

  ghost predicate Consistent(s: Store) {
    && Numbered(s.hits)
    && (forall h <- s.hits :: h.window <= s.window)
    && (forall w <- s.ends :: w <= s.window)
    && (s.counter.Counting? ==>
          && s.counter.count == HitsIn(s.hits, s.window)
          && (s.counter.end.Some? <==> s.window in s.ends)
          && (s.counter.end.Some? ==> s.ends[s.window] == s.counter.end.value))
  }

  lemma HitsInLast(hits: seq<Hit>, h: Hit, window: nat)
    ensures HitsIn(hits + [h], window) == HitsIn(hits, window) + if h.window == window then 1 else 0
  {
    assert (hits + [h])[..|hits|] == hits;
  }

  lemma {:induction false} NoHitsIn(hits: seq<Hit>, window: nat)
    requires forall h <- hits :: h.window < window
    ensures HitsIn(hits, window) == 0
  {
    if hits != [] {
      NoHitsIn(hits[..|hits| - 1], window);
      assert hits[|hits| - 1] in hits;
    }
  }

  lemma NumberedLast(hits: seq<Hit>, h: Hit)
    requires Numbered(hits) && h.position == HitsIn(hits, h.window) + 1
    ensures Numbered(hits + [h])
  {
    var all := hits + [h];
    HitsInLast(hits, h, h.window);
    assert all[..|all|] == all;
    forall i | 0 <= i < |hits|
      ensures all[i].position == HitsIn(all[..i + 1], all[i].window)
    {
      assert all[..i + 1] == hits[..i + 1];
    }
  }

  /** One more call, as a reply and as the new counter. */
  lemma IncrReply(s: Store, at: int, limit: int)
    ensures var after := Step(s, Event(at, Incr(limit)));
            var isNew := Live(s.counter, at).Missing?;
            && after.window == (if isNew then s.window + 1 else s.window)
            && after.counter.Counting?
            && after.counter.count == (if isNew then 1 else s.counter.count + 1)
            && after.counter.end == (if isNew then None else s.counter.end)
            && after.hits == s.hits + [Hit(after.window, after.counter.count, limit, at)]
            && after.ends == s.ends
            && (!isNew ==> s.counter.Counting?) && (s.counter.Missing? ==> isNew)
  {
  }

  lemma {:induction false} IncrConsistent(s: Store, at: int, limit: int)
    requires Consistent(s)
    ensures Consistent(Step(s, Event(at, Incr(limit))))
  {
    hide HitsIn, Numbered, Step, Live;
    var after := Step(s, Event(at, Incr(limit)));
    IncrReply(s, at, limit);
    var h := Hit(after.window, after.counter.count, limit, at);
    IncrCounted(s, h);
    NumberedLast(s.hits, h);
    forall x <- after.hits
      ensures x.window <= after.window
    {
      assert x in s.hits || x == h;
    }
  }

  /** The reply is the number of calls of its window, itself included. */
  lemma IncrCounted(s: Store, h: Hit)
    requires Consistent(s)
    requires s.counter.Missing? || Live(s.counter, h.at).Missing? ==> h.window == s.window + 1 && h.position == 1
    requires Live(s.counter, h.at).Counting? ==> h.window == s.window && h.position == s.counter.count + 1
    ensures h.position == HitsIn(s.hits, h.window) + 1 == HitsIn(s.hits + [h], h.window)
  {
    hide Numbered;
    NoHitsIn(s.hits, s.window + 1);
    HitsInLast(s.hits, h, h.window);
  }

  lemma ExpireConsistent(s: Store, at: int, ttl: int)
    requires Consistent(s)
    ensures Consistent(Step(s, Event(at, ExpireNx(ttl))))
  {
    hide HitsIn;
    hide Numbered;
  }

  lemma {:induction false} StepConsistent(s: Store, e: Event)
    requires Consistent(s)
    ensures Consistent(Step(s, e))
  {
    hide Consistent;
    hide Step;
    match e.command
    case Incr(limit) => IncrConsistent(s, e.at, limit);
    case ExpireNx(ttl) => ExpireConsistent(s, e.at, ttl);
  }

  lemma {:induction false} RunConsistent(events: seq<Event>)
    ensures Consistent(Run(EMPTY, events))
  {
    if events != [] {
      RunConsistent(events[..|events| - 1]);
      StepConsistent(Run(EMPTY, events[..|events| - 1]), events[|events| - 1]);
    }
  }

  /** In numbered replies a window accepts its first `limit` calls and no more. */
  lemma {:induction false} AcceptsFirst(hits: seq<Hit>, window: nat, limit: nat)
    requires Numbered(hits)
    ensures (forall h <- hits :: h.window == window ==> h.limit <= limit) ==> AcceptedIn(hits, window) <= limit
    ensures (forall h <- hits :: h.window == window ==> h.limit == limit) ==>
              AcceptedIn(hits, window) == Min(limit, HitsIn(hits, window))
    ensures AcceptedIn(hits, window) <= HitsIn(hits, window)
  {
    if hits != [] {
      var n := |hits| - 1;
      forall i | 0 <= i < n
        ensures hits[..n][i].position == HitsIn(hits[..n][..i + 1], hits[..n][i].window)
      {
        assert hits[..n][..i + 1] == hits[..i + 1];
      }
      assert hits[n] in hits && hits[..n + 1] == hits;
      AcceptsFirst(hits[..n], window, limit);
    }
  }

  /** However the commands of the calls interleave, a window accepts at most the limit, and with one limit
      for all calls exactly its first `limit` calls. */
  lemma WindowAcceptsAtMostLimit(events: seq<Event>, window: nat, limit: nat)
    ensures var hits := Run(EMPTY, events).hits;
            && ((forall h <- hits :: h.window == window ==> h.limit <= limit) ==> AcceptedIn(hits, window) <= limit)
            && ((forall h <- hits :: h.window == window ==> h.limit == limit) ==>
                  AcceptedIn(hits, window) == Min(limit, HitsIn(hits, window)))
  {
    RunConsistent(events);
    AcceptsFirst(Run(EMPTY, events).hits, window, limit);
  }

  lemma StepKeepsEnds(s: Store, e: Event, window: nat)
    requires Consistent(s) && window in s.ends
    ensures window in Step(s, e).ends && Step(s, e).ends[window] == s.ends[window]
  {
    hide HitsIn;
    hide Numbered;
  }

  /** Once set, the end of a window is never moved: not by blocked calls, nor by calls under another role. */
  lemma {:induction false} EndNeverMoves(events: seq<Event>, more: seq<Event>, window: nat)
    requires window in Run(EMPTY, events).ends
    ensures window in Run(EMPTY, events + more).ends
    ensures Run(EMPTY, events + more).ends[window] == Run(EMPTY, events).ends[window]
  {
    hide Consistent;
    hide Step;
    if more == [] {
      assert events + more == events;
    } else {
      var n := |more| - 1;
      EndNeverMoves(events, more[..n], window);
      assert (events + more)[..|events| + n] == events + more[..n];
      RunConsistent(events + more[..n]);
      StepKeepsEnds(Run(EMPTY, events + more[..n]), more[n], window);
    }
  }

  predicate PositiveTtls(events: seq<Event>) {
    forall e <- events :: e.command.ExpireNx? ==> e.command.ttl >= 1
  }

  /** The calls of a window came before its end, those of later windows not before it. */
  ghost predicate Separated(s: Store) {
    && (forall h <- s.hits :: h.window in s.ends ==> h.at < s.ends[h.window])
    && (forall h <- s.hits, w <- s.ends :: w < h.window ==> s.ends[w] <= h.at)
  }

  ghost predicate UpTo(s: Store, clock: int) {
    && (forall h <- s.hits :: h.at <= clock)
    && (forall w <- s.ends :: w < s.window || s.counter.Missing? ==> s.ends[w] <= clock)
  }

  lemma IncrSeparated(s: Store, at: int, limit: int, clock: int)
    requires Consistent(s) && Separated(s) && UpTo(s, clock) && clock <= at
    ensures Separated(Step(s, Event(at, Incr(limit)))) && UpTo(Step(s, Event(at, Incr(limit))), at)
  {
    IncrReply(s, at, limit);
    hide HitsIn;
    hide Numbered;
    hide Step;
    var after := Step(s, Event(at, Incr(limit)));
    forall x <- after.hits
      ensures x in s.hits || x == Hit(after.window, after.counter.count, limit, at)
    {
    }
  }

  lemma ExpireSeparated(s: Store, at: int, ttl: int, clock: int)
    requires Consistent(s) && Separated(s) && UpTo(s, clock) && clock <= at && ttl >= 1
    ensures Separated(Step(s, Event(at, ExpireNx(ttl)))) && UpTo(Step(s, Event(at, ExpireNx(ttl))), at)
  {
    hide HitsIn;
    hide Numbered;
  }

  lemma StepSeparated(s: Store, e: Event, clock: int)
    requires Consistent(s) && Separated(s) && UpTo(s, clock) && clock <= e.at
    requires e.command.ExpireNx? ==> e.command.ttl >= 1
    ensures Separated(Step(s, e)) && UpTo(Step(s, e), e.at)
  {
    hide Consistent;
    hide Separated;
    hide UpTo;
    hide Step;
    match e.command
    case Incr(limit) => IncrSeparated(s, e.at, limit, clock);
    case ExpireNx(ttl) => ExpireSeparated(s, e.at, ttl, clock);
  }

  lemma {:induction false} RunSeparated(events: seq<Event>, clock: int)
    requires InClockOrder(events) && PositiveTtls(events) && (forall e <- events :: e.at <= clock)
    ensures Separated(Run(EMPTY, events)) && UpTo(Run(EMPTY, events), clock)
  {
    if events != [] {
      var n := |events| - 1;
      assert events[n] in events;
      forall e <- events[..n]
        ensures e.at <= events[n].at && e in events
      {
        var i :| 0 <= i < n && events[i] == e;
      }
      RunSeparated(events[..n], events[n].at);
      RunConsistent(events[..n]);
      StepSeparated(Run(EMPTY, events[..n]), events[n], events[n].at);
    }
  }

  /** Windows do not overlap: every call of a window comes before its end and every call of a later window
      at or after it. */
  lemma WindowsAreDisjoint(events: seq<Event>, i: nat, w: nat)
    requires InClockOrder(events) && PositiveTtls(events)
    requires i < |Run(EMPTY, events).hits| && w in Run(EMPTY, events).ends
    ensures var s := Run(EMPTY, events);
            var h := s.hits[i];
            && (h.window == w ==> h.at < s.ends[w])
            && (h.window > w ==> s.ends[w] <= h.at)
  {
    if events != [] {
      forall e <- events
        ensures e.at <= events[|events| - 1].at
      {
      }
      RunSeparated(events, events[|events| - 1].at);
      assert Run(EMPTY, events).hits[i] in Run(EMPTY, events).hits;
    }
  }

  /** A rejected call's retryAfter is exact: a lone call is counted first in a new window, and so goes
      through under any positive limit, exactly when it comes no earlier than that many seconds later. */
  lemma RetryAfterIsExact(events: seq<Event>, role: Role, limit: int, ttl: int, at: int, later: int, next: int)
    requires ttl >= 1 && at <= later && next >= 1
    ensures var s := Run(Run(EMPTY, events), CallEvents(role, limit, ttl, at));
            var retryAfter := Ttl(s.counter, at);
            var hits := Step(s, Event(later, Incr(next))).hits;
            var h := hits[|hits| - 1];
            && 1 <= retryAfter && (s.counter.Counting? && s.counter.end == Some(at + retryAfter))
            && (later >= at + retryAfter <==> h.window == s.window + 1 && h.position == 1)
            && (later >= at + retryAfter ==> h.position <= h.limit == next)
            && (later < at + retryAfter ==> h.window == s.window && h.position == s.counter.count + 1)
  {
    var effective := EffectiveTtl(role, ttl);
    var first := Run(EMPTY, events);
    RunTwo(first, Event(at, Incr(limit)), Event(at, ExpireNx(effective)));
    hide Run;
    CallLeaves(first, limit, effective, at);
    var s := Run(first, CallEvents(role, limit, ttl, at));
    IncrReply(s, later, next);
    hide Step;
  }

  /** After a limited call the window has an end to come. */
  lemma CallLeaves(s: Store, limit: int, seconds: int, at: int)
    requires seconds >= 1
    ensures var after := Step(Step(s, Event(at, Incr(limit))), Event(at, ExpireNx(seconds)));
            after.counter.Counting? && after.counter.end.Some? && after.counter.end.value > at
  {
  }
}
