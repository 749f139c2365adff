// The sliding-window limiter over Redis sorted sets (mypalace/ratelimit/limiter.py).
module RateLimiter {
  import opened Prelude

  type Time = real // seconds since the epoch
  type LimiterId = nat // the identity of the limiter object, part of every member

  const WINDOW := 60.0

  // A sorted set whose member names carry their score, and the time its key expires.
  datatype SortedSet = SortedSet(members: set<(Time, LimiterId)>, expiresAt: Time)

  datatype Decision = Decision(allowed: bool, current: nat, limit: int, retryAfter: int)

  // One past request for a key, as an outside observer would log it.
  datatype Attempt = Attempt(time: Time, who: LimiterId, limit: int, allowed: bool)

  function Key(tenant: string, keyId: string, user: string, bucket: string): string {
    "palace:rl:" + (tenant + ":" + (keyId + ":" + (user + ":" + bucket)))
  }

  // An expired key reads as an empty set.
  function Members(keys: map<string, SortedSet>, key: string, now: Time): set<(Time, LimiterId)> {
    if key in keys && now < keys[key].expiresAt then keys[key].members else {}
  }

  function DropScores(members: set<(Time, LimiterId)>, lo: Time, hi: Time): set<(Time, LimiterId)> {
    set m | m in members && !(lo <= m.0 <= hi)
  }

  // ---- The log of attempts, and what the limiter promises about it ----

  // Times never go back.
  predicate Ordered(h: seq<Attempt>) {
    h == [] ||
    var rest, last := h[..|h| - 1], h[|h| - 1];
    && Ordered(rest)
    && last.time >= 0.0
    && forall a | a in rest :: 0.0 <= a.time <= last.time
  }

  predicate Unused(h: seq<Attempt>, time: Time, who: LimiterId) {
    forall a | a in h :: (a.time, a.who) != (time, who)
  }

  // No two attempts share both time and limiter.
  predicate NoRepeats(h: seq<Attempt>) {
    h == [] || (NoRepeats(h[..|h| - 1]) && Unused(h[..|h| - 1], h[|h| - 1].time, h[|h| - 1].who))
  }

  // The attempts in the window (lo, ...].
  function InWindow(h: seq<Attempt>, lo: Time): nat {
    if h == [] then 0 else InWindow(h[..|h| - 1], lo) + (if h[|h| - 1].time > lo then 1 else 0)
  }

  function AllowedBetween(h: seq<Attempt>, lo: Time, hi: Time): nat {
    if h == [] then 0 else
      var a := h[|h| - 1];
      AllowedBetween(h[..|h| - 1], lo, hi) + (if a.allowed && lo < a.time <= hi then 1 else 0)
  }

  // The members stored for the attempts after `lo`.
  ghost function Recent(h: seq<Attempt>, lo: Time): set<(Time, LimiterId)> {
    set a | a in h && a.time > lo :: (a.time, a.who)
  }

  ghost function AllowedMembers(h: seq<Attempt>, lo: Time, hi: Time): set<(Time, LimiterId)> {
    set a | a in h && a.allowed && lo < a.time <= hi :: (a.time, a.who)
  }

  // Each attempt was allowed exactly when fewer than its limit members preceded it in its window.
  ghost predicate Exact(h: seq<Attempt>) {
    h == [] ||
    var rest, last := h[..|h| - 1], h[|h| - 1];
    && Exact(rest)
    && (last.allowed <==> |Recent(rest, last.time - 60.0)| < last.limit)
  }

  // The same, counting attempts.
  predicate Faithful(h: seq<Attempt>) {
    h == [] ||
    var rest, last := h[..|h| - 1], h[|h| - 1];
    && Faithful(rest)
    && (last.allowed <==> InWindow(rest, last.time - 60.0) < last.limit)
  }

  // The stored set is the log's last window, with a second to spare before it expires.
  ghost predicate Mirrors(keys: map<string, SortedSet>, key: string, h: seq<Attempt>) {
    if h == [] then key !in keys
    else
      var last := h[|h| - 1].time;
      key in keys && keys[key].members == Recent(h, last - 60.0) && keys[key].expiresAt == last + 61.0
  }

  lemma OrderedTimes(h: seq<Attempt>)
    requires Ordered(h)
    ensures forall a | a in h :: 0.0 <= a.time <= h[|h| - 1].time
  {
    if h != [] {
      assert h == h[..|h| - 1] + [h[|h| - 1]];
    }
  }

  // Pruning and expiry together leave exactly the attempts of the current window: the key
  // never expires while it holds one of them.
  lemma PruningKeepsTheWindow(keys: map<string, SortedSet>, key: string, h: seq<Attempt>, now: Time)
    requires Ordered(h) && Mirrors(keys, key, h)
    requires forall a | a in h :: a.time <= now
    ensures DropScores(Members(keys, key, now), 0.0, now - WINDOW) == Recent(h, now - WINDOW)
    ensures key in keys && now >= keys[key].expiresAt ==> Recent(h, now - WINDOW) == {}
  {
    OrderedTimes(h);
  }

  lemma RecentSnoc(rest: seq<Attempt>, a: Attempt, lo: Time)
    ensures Recent(rest + [a], lo) == Recent(rest, lo) + (if a.time > lo then {(a.time, a.who)} else {})
  {
    var h := rest + [a];
    forall m | m in Recent(rest, lo) ensures m in Recent(h, lo) {
      var b :| b in rest && b.time > lo && (b.time, b.who) == m;
      assert b in h;
    }
    if a.time > lo {
      assert a in h;
    }
  }

  // ---- One request ----

  // The set after one more request from `who`.
  function Recorded(keys: map<string, SortedSet>, key: string, now: Time, who: LimiterId): SortedSet {
    SortedSet(DropScores(Members(keys, key, now), 0.0, now - WINDOW) + {(now, who)}, now + WINDOW + 1.0)
  }

  function Decide(keys: map<string, SortedSet>, key: string, limit: int, now: Time): Decision {
    var current := |DropScores(Members(keys, key, now), 0.0, now - WINDOW)| + 1;
    if current > limit then Decision(false, current, limit, 60) else Decision(true, current, limit, 0)
  }

  lemma DecisionForm(keys: map<string, SortedSet>, key: string, limit: int, now: Time)
    ensures var d := Decide(keys, key, limit, now); d.limit == limit && d.retryAfter == (if d.allowed then 0 else 60)
  {
  }

  // A key's log is exact and its set in step with it.
  ghost predicate InStep(keys: map<string, SortedSet>, key: string, h: seq<Attempt>) {
    Ordered(h) && Exact(h) && Mirrors(keys, key, h)
  }

  lemma OrderedSnoc(h: seq<Attempt>, a: Attempt)
    requires Ordered(h) && a.time >= 0.0 && forall b | b in h :: b.time <= a.time
    ensures Ordered(h + [a])
  {
    assert (h + [a])[..|h|] == h;
    OrderedTimes(h);
  }

  lemma ExactSnoc(h: seq<Attempt>, a: Attempt)
    requires Exact(h) && (a.allowed <==> |Recent(h, a.time - WINDOW)| < a.limit)
    ensures Exact(h + [a])
  {
    hide Recent;
    assert (h + [a])[..|h|] == h;
  }

  lemma MirrorsSnoc(keys: map<string, SortedSet>, key: string, h: seq<Attempt>, a: Attempt)
    requires Ordered(h) && Mirrors(keys, key, h) && forall b | b in h :: b.time <= a.time
    ensures Mirrors(keys[key := Recorded(keys, key, a.time, a.who)], key, h + [a])
  {
    PruningKeepsTheWindow(keys, key, h, a.time);
    RecentSnoc(h, a, a.time - WINDOW);
    hide Recent, DropScores, Ordered;
  }

  // Recording an exactly decided attempt keeps log and set in step.
  lemma AttemptRecorded(keys: map<string, SortedSet>, key: string, h: seq<Attempt>, a: Attempt)
    requires InStep(keys, key, h)
    requires a.time >= 0.0 && forall b | b in h :: b.time <= a.time
    requires a.allowed <==> |Recent(h, a.time - WINDOW)| < a.limit
    ensures InStep(keys[key := Recorded(keys, key, a.time, a.who)], key, h + [a])
  {
    hide Ordered, Exact, Mirrors, Recent;
    OrderedSnoc(h, a);
    ExactSnoc(h, a);
    MirrorsSnoc(keys, key, h, a);
  }

  // One request, repeated or not: the decision is exact, and log and set stay in step.
  lemma RequestInStep(keys: map<string, SortedSet>, key: string, h: seq<Attempt>, limit: int, now: Time, who: LimiterId)
    requires InStep(keys, key, h)
    requires now >= 0.0 && forall a | a in h :: a.time <= now
    ensures var d := Decide(keys, key, limit, now);
      && d.current == |Recent(h, now - WINDOW)| + 1
      && (d.allowed <==> |Recent(h, now - WINDOW)| < limit)
      && InStep(keys[key := Recorded(keys, key, now, who)], key, h + [Attempt(now, who, limit, d.allowed)])
  {
    PruningKeepsTheWindow(keys, key, h, now);
    hide Recent, Recorded, DropScores;
    AttemptRecorded(keys, key, h, Attempt(now, who, limit, Decide(keys, key, limit, now).allowed));
  }

  // ---- Whole runs: any requests, for any keys, interleaved ----

  // `reachable` is whether Redis answers; if not, the request is let by and not recorded.
  datatype Request = Request(key: string, limit: int, time: Time, who: LimiterId, reachable: bool)

  // The sorted sets after a run of requests, and the log of one key's recorded attempts.
  function Serve(reqs: seq<Request>): map<string, SortedSet> {
    if reqs == [] then map[] else
      var keys, r := Serve(reqs[..|reqs| - 1]), reqs[|reqs| - 1];
      if r.reachable then keys[r.key := Recorded(keys, r.key, r.time, r.who)] else keys
  }

  function Log(reqs: seq<Request>, key: string): seq<Attempt> {
    if reqs == [] then [] else
      var rest, r := reqs[..|reqs| - 1], reqs[|reqs| - 1];
      if r.key != key || !r.reachable then Log(rest, key)
      else Log(rest, key) + [Attempt(r.time, r.who, r.limit, Decide(Serve(rest), key, r.limit, r.time).allowed)]
  }

  predicate ClockMoves(reqs: seq<Request>) {
    && (forall i | 0 <= i < |reqs| :: reqs[i].time >= 0.0)
    && (forall i, j | 0 <= i < j < |reqs| :: reqs[i].time <= reqs[j].time)
  }

  // No limiter asks twice about the key at one instant.
  predicate NoneRepeated(reqs: seq<Request>, key: string) {
    forall i, j | 0 <= i < j < |reqs| && reqs[i].key == reqs[j].key == key && reqs[i].reachable && reqs[j].reachable ::
      (reqs[i].time, reqs[i].who) != (reqs[j].time, reqs[j].who)
  }

  // The attempt comes from one of the key's requests.
  ghost predicate Asked(reqs: seq<Request>, key: string, a: Attempt) {
    exists i :: 0 <= i < |reqs| && reqs[i] == Request(key, a.limit, a.time, a.who, true)
  }

  lemma {:induction false} Logged(reqs: seq<Request>, key: string)
    ensures forall a | a in Log(reqs, key) :: Asked(reqs, key, a)
  {
    if reqs == [] {
    } else {
      var rest := reqs[..|reqs| - 1];
      Logged(rest, key);
      forall a | a in Log(reqs, key) ensures Asked(reqs, key, a) {
        if a in Log(rest, key) {
          var i :| 0 <= i < |rest| && rest[i] == Request(key, a.limit, a.time, a.who, true);
          assert reqs[i] == rest[i];
        } else {
          assert reqs[|reqs| - 1] == Request(key, a.limit, a.time, a.who, true);
        }
      }
    }
  }

  // In every run each key's set mirrors its own attempts and each decision was exact.
  lemma {:induction false} RunsStayInStep(reqs: seq<Request>, key: string)
    requires ClockMoves(reqs)
    ensures InStep(Serve(reqs), key, Log(reqs, key))
  {
    if reqs == [] {
    } else {
      var rest, r := reqs[..|reqs| - 1], reqs[|reqs| - 1];
      RunsStayInStep(rest, key);
      if r.key == key && r.reachable {
        Logged(rest, key);
        RequestInStep(Serve(rest), key, Log(rest, key), r.limit, r.time, r.who);
      }
    }
  }

  // ---- The bound ----

  lemma AllowedSnoc(rest: seq<Attempt>, a: Attempt, lo: Time, hi: Time)
    ensures AllowedMembers(rest + [a], lo, hi)
      == AllowedMembers(rest, lo, hi) + (if a.allowed && lo < a.time <= hi then {(a.time, a.who)} else {})
  {
    var h := rest + [a];
    forall m | m in AllowedMembers(rest, lo, hi) ensures m in AllowedMembers(h, lo, hi) {
      var b :| b in rest && b.allowed && lo < b.time <= hi && (b.time, b.who) == m;
      assert b in h;
    }
    if a.allowed && lo < a.time <= hi {
      assert a in h;
    }
  }

  lemma OneMoreMember<T>(s: set<T>, x: T)
    ensures |s + {x}| <= |s| + 1
  {
  }

  lemma AllowedAmongRecent(h: seq<Attempt>, lo: Time, hi: Time, from: Time)
    requires from <= lo
    ensures |AllowedMembers(h, lo, hi)| <= |Recent(h, from)|
  {
    SubsetSize(AllowedMembers(h, lo, hi), Recent(h, from));
  }

  lemma ExactLast(h: seq<Attempt>, a: Attempt)
    requires Exact(h + [a])
    ensures Exact(h) && (a.allowed <==> |Recent(h, a.time - WINDOW)| < a.limit)
  {
    hide Recent;
    assert (h + [a])[..|h|] == h;
  }

  lemma WindowStep(rest: seq<Attempt>, a: Attempt, t: Time, limit: nat)
    requires a.allowed ==> |Recent(rest, a.time - WINDOW)| < a.limit
    requires |AllowedMembers(rest, t - WINDOW, t)| <= limit && a.limit <= limit
    ensures |AllowedMembers(rest + [a], t - WINDOW, t)| <= limit
  {
    hide AllowedMembers, Recent;
    var before := AllowedMembers(rest, t - WINDOW, t);
    AllowedSnoc(rest, a, t - WINDOW, t);
    if a.allowed && t - WINDOW < a.time <= t {
      AllowedAmongRecent(rest, t - WINDOW, t, a.time - WINDOW);
      OneMoreMember(before, (a.time, a.who));
    } else {
      assert before + {} == before;
    }
  }

  // Exact decisions bound every window: the allowed members are among those that the last
  // allowed attempt was checked against, and itself.
  lemma {:induction false} EveryWindowIsBounded(h: seq<Attempt>, t: Time, limit: nat)
    requires Exact(h) && forall i | 0 <= i < |h| :: h[i].limit <= limit
    ensures |AllowedMembers(h, t - WINDOW, t)| <= limit
  {
    if h == [] {
      assert AllowedMembers(h, t - WINDOW, t) == {};
    } else {
      hide AllowedMembers, Recent, Exact;
      var n := |h| - 1;
      assert h == h[..n] + [h[n]];
      ExactLast(h[..n], h[n]);
      EveryWindowIsBounded(h[..n], t, limit);
      WindowStep(h[..n], h[n], t, limit);
    }
  }

  // Without any assumption on repeats, a window never holds more than `limit` different
  // allowed members of a key.
  lemma MembersAreLimited(reqs: seq<Request>, key: string, limit: nat, t: Time)
    requires ClockMoves(reqs)
    requires forall i | 0 <= i < |reqs| && reqs[i].key == key && reqs[i].reachable :: reqs[i].limit <= limit
    ensures |AllowedMembers(Log(reqs, key), t - 60.0, t)| <= limit
  {
    RunsStayInStep(reqs, key);
    Logged(reqs, key);
    var h := Log(reqs, key);
    forall n | 0 <= n < |h| ensures h[n].limit <= limit {
      assert h[n] in h && Asked(reqs, key, h[n]);
    }
    EveryWindowIsBounded(h, t, limit);
  }

  lemma {:induction false} WindowSize(h: seq<Attempt>, lo: Time)
    requires NoRepeats(h)
    ensures |Recent(h, lo)| == InWindow(h, lo)
  {
    if h == [] {
    } else {
      var rest, a := h[..|h| - 1], h[|h| - 1];
      assert h == rest + [a];
      WindowSize(rest, lo);
      RecentSnoc(rest, a, lo);
    }
  }

  lemma {:induction false} AllowedSize(h: seq<Attempt>, lo: Time, hi: Time)
    requires NoRepeats(h)
    ensures |AllowedMembers(h, lo, hi)| == AllowedBetween(h, lo, hi)
  {
    if h == [] {
      assert AllowedMembers(h, lo, hi) == {};
    } else {
      var rest, a := h[..|h| - 1], h[|h| - 1];
      assert h == rest + [a];
      AllowedSize(rest, lo, hi);
      AllowedSnoc(rest, a, lo, hi);
    }
  }

  // Some attempt was let by only because earlier ones had overwritten each other.
  ghost predicate Undercounted(h: seq<Attempt>) {
    h != [] &&
    var rest, a := h[..|h| - 1], h[|h| - 1];
    || Undercounted(rest)
    || |Recent(rest, a.time - WINDOW)| < a.limit <= InWindow(rest, a.time - WINDOW)
  }

  lemma {:induction false} RecentAtMost(h: seq<Attempt>, lo: Time)
    ensures |Recent(h, lo)| <= InWindow(h, lo)
  {
    if h == [] {
      assert Recent(h, lo) == {};
    } else {
      var rest, a := h[..|h| - 1], h[|h| - 1];
      assert h == rest + [a];
      RecentAtMost(rest, lo);
      RecentSnoc(rest, a, lo);
      OneMoreMember(Recent(rest, lo), (a.time, a.who));
    }
  }

  // Exact decisions count every attempt exactly when no overwriting let one by.
  lemma {:induction false} FaithfulIff(h: seq<Attempt>)
    requires Exact(h)
    ensures Faithful(h) <==> !Undercounted(h)
  {
    hide Recent;
    if h == [] {
    } else {
      FaithfulIff(h[..|h| - 1]);
      RecentAtMost(h[..|h| - 1], h[|h| - 1].time - WINDOW);
    }
  }

  lemma {:induction false} NoRepeatsNoUndercount(h: seq<Attempt>)
    requires NoRepeats(h)
    ensures !Undercounted(h)
  {
    hide Recent;
    if h == [] {
    } else {
      NoRepeatsNoUndercount(h[..|h| - 1]);
      WindowSize(h[..|h| - 1], h[|h| - 1].time - WINDOW);
    }
  }

  lemma {:induction false} LogHasNoRepeats(reqs: seq<Request>, key: string)
    requires NoneRepeated(reqs, key)
    ensures NoRepeats(Log(reqs, key))
  {
    if reqs == [] {
    } else {
      var rest, r := reqs[..|reqs| - 1], reqs[|reqs| - 1];
      LogHasNoRepeats(rest, key);
      if r.key == key && r.reachable {
        Logged(rest, key);
        var h := Log(reqs, key);
        assert h[..|h| - 1] == Log(rest, key);
      }
    }
  }

  // With no repeats, each request is allowed exactly when fewer than its limit preceded it.
  lemma RunsAreFaithful(reqs: seq<Request>, key: string)
    requires ClockMoves(reqs) && NoneRepeated(reqs, key)
    ensures Faithful(Log(reqs, key))
  {
    RunsStayInStep(reqs, key);
    LogHasNoRepeats(reqs, key);
    NoRepeatsNoUndercount(Log(reqs, key));
    FaithfulIff(Log(reqs, key));
  }

  // The bound the limiter exists for: in any run, any window of sixty seconds, placed anywhere,
  // holds at most `limit` allowed requests of a key among those that Redis recorded.
  lemma RateIsLimited(reqs: seq<Request>, key: string, limit: nat, t: Time)
    requires ClockMoves(reqs) && NoneRepeated(reqs, key)
    requires forall i | 0 <= i < |reqs| && reqs[i].key == key && reqs[i].reachable :: reqs[i].limit <= limit
    ensures AllowedBetween(Log(reqs, key), t - 60.0, t) <= limit
  {
    MembersAreLimited(reqs, key, limit, t);
    LogHasNoRepeats(reqs, key);
    AllowedSize(Log(reqs, key), t - WINDOW, t);
  }

  // Whether a request gets through: always when Redis does not answer.
  function GetsThrough(keys: map<string, SortedSet>, r: Request): bool {
    !r.reachable || Decide(keys, r.key, r.limit, r.time).allowed
  }

  // The key's requests in a window that got through, and those Redis did not answer.
  function LetBy(reqs: seq<Request>, key: string, lo: Time, hi: Time): nat {
    if reqs == [] then 0 else
      var rest, r := reqs[..|reqs| - 1], reqs[|reqs| - 1];
      LetBy(rest, key, lo, hi) + (if r.key == key && lo < r.time <= hi && GetsThrough(Serve(rest), r) then 1 else 0)
  }

  function Unanswered(reqs: seq<Request>, key: string, lo: Time, hi: Time): nat {
    if reqs == [] then 0 else
      var r := reqs[|reqs| - 1];
      Unanswered(reqs[..|reqs| - 1], key, lo, hi) + (if r.key == key && lo < r.time <= hi && !r.reachable then 1 else 0)
  }

  lemma {:induction false} LetByIsLogged(reqs: seq<Request>, key: string, lo: Time, hi: Time)
    ensures LetBy(reqs, key, lo, hi) == AllowedBetween(Log(reqs, key), lo, hi) + Unanswered(reqs, key, lo, hi)
  {
    hide Decide, Serve;
    if reqs == [] {
    } else {
      var rest := reqs[..|reqs| - 1];
      LetByIsLogged(rest, key, lo, hi);
      if Log(reqs, key) != Log(rest, key) {
        assert Log(reqs, key)[..|Log(reqs, key)| - 1] == Log(rest, key);
      }
    }
  }

  // Outages included, a window never lets by more than `limit` and the unanswered requests.
  lemma OutagesAddTheUnanswered(reqs: seq<Request>, key: string, limit: nat, t: Time)
    requires ClockMoves(reqs) && NoneRepeated(reqs, key)
    requires forall i | 0 <= i < |reqs| && reqs[i].key == key && reqs[i].reachable :: reqs[i].limit <= limit
    ensures LetBy(reqs, key, t - 60.0, t) <= limit + Unanswered(reqs, key, t - 60.0, t)
  {
    RateIsLimited(reqs, key, limit, t);
    LetByIsLogged(reqs, key, t - WINDOW, t);
  }

  // After sixty seconds without a recorded request for its key, a request gets through exactly
  // when its limit admits any, or when Redis does not answer.
  lemma AllowedAfterQuiet(reqs: seq<Request>, r: Request)
    requires ClockMoves(reqs + [r])
    requires forall i | 0 <= i < |reqs| && reqs[i].key == r.key && reqs[i].reachable :: reqs[i].time <= r.time - 60.0
    ensures GetsThrough(Serve(reqs), r) <==> !r.reachable || r.limit >= 1
  {
    var all := reqs + [r];
    assert all[|reqs|] == r && forall i | 0 <= i < |reqs| :: all[i] == reqs[i];
    RunsStayInStep(reqs, r.key);
    Logged(reqs, r.key);
    RequestInStep(Serve(reqs), r.key, Log(reqs, r.key), r.limit, r.time, r.who);
    assert Recent(Log(reqs, r.key), r.time - WINDOW) == {};
  }

  lemma LastLogged(reqs: seq<Request>, r: Request)
    requires r.reachable
    ensures Log(reqs + [r], r.key) ==
      Log(reqs, r.key) + [Attempt(r.time, r.who, r.limit, Decide(Serve(reqs), r.key, r.limit, r.time).allowed)]
  {
    hide Decide, Serve;
    assert (reqs + [r])[..|reqs|] == reqs;
  }

  // A recorded request counts against the next one of its key for sixty seconds.
  lemma CountsForAMinute(reqs: seq<Request>, r: Request, next: Request)
    requires ClockMoves(reqs + [r]) && r.reachable && next.key == r.key && next.reachable
    requires r.time <= next.time < r.time + 60.0 && next.limit == 1
    ensures !GetsThrough(Serve(reqs + [r]), next)
  {
    var both := reqs + [r];
    var h := Log(both, r.key);
    RunsStayInStep(both, r.key);
    Logged(both, r.key);
    LastLogged(reqs, r);
    assert h[|h| - 1] in h && (r.time, r.who) in Recent(h, next.time - WINDOW);
    forall a | a in h ensures a.time <= next.time {
      assert Asked(both, r.key, a) && both[|reqs|] == r;
    }
    hide ClockMoves, Recent, Serve, Log, Decide, InStep;
    RequestInStep(Serve(both), r.key, h, next.limit, next.time, next.who);
  }

  // What a denied caller is told to wait, sixty seconds, is enough; and if the limit is one, exactly
  // enough: the denied request itself keeps the next one out for that long.
  lemma RetryAfterIsExact(reqs: seq<Request>, r: Request, next: Request)
    requires ClockMoves(reqs + [r] + [next]) && next.key == r.key && r.reachable && next.reachable && next.limit >= 1
    ensures var told := Decide(Serve(reqs), r.key, r.limit, r.time);
      && told.limit == r.limit
      && told.retryAfter == (if told.allowed then 0 else 60)
      && (!told.allowed && next.time >= r.time + told.retryAfter as real ==> GetsThrough(Serve(reqs + [r]), next))
      && (!told.allowed && next.limit == 1 ==>
            (GetsThrough(Serve(reqs + [r]), next) <==> next.time >= r.time + told.retryAfter as real))
  {
    hide Decide, Serve, GetsThrough;
    DecisionForm(Serve(reqs), r.key, r.limit, r.time);
    var both, all := reqs + [r], reqs + [r] + [next];
    assert forall i | 0 <= i < |both| :: all[i] == both[i];
    assert both[|reqs|] == r && all[|both|] == next;
    if next.time >= r.time + 60.0 {
      AllowedAfterQuiet(both, next);
    } else if next.limit == 1 {
      CountsForAMinute(reqs, r, next);
    }
  }

  // ---- What no repeats are for ----

  function Burst(r: Request, n: nat): seq<Request> {
    if n == 0 then [] else Burst(r, n - 1) + [r]
  }

  lemma {:induction false} BurstLength(r: Request, n: nat)
    ensures |Burst(r, n)| == n && (n > 0 ==> Burst(r, n)[n - 1] == r)
  {
    if n == 0 {
    } else {
      BurstLength(r, n - 1);
    }
  }

  ghost predicate OneAtOnce(keys: map<string, SortedSet>, r: Request) {
    r.key in keys && keys[r.key] == SortedSet({(r.time, r.who)}, r.time + WINDOW + 1.0)
  }

  lemma RepeatOverwrites(keys: map<string, SortedSet>, r: Request)
    requires OneAtOnce(keys, r) || r.key !in keys
    ensures OneAtOnce(keys[r.key := Recorded(keys, r.key, r.time, r.who)], r)
  {
    assert DropScores(Members(keys, r.key, r.time), 0.0, r.time - WINDOW) <= {(r.time, r.who)};
  }

  lemma {:induction false} BurstStored(r: Request, n: nat)
    requires r.reachable
    ensures if n == 0 then r.key !in Serve(Burst(r, n)) else OneAtOnce(Serve(Burst(r, n)), r)
  {
    hide Recorded, OneAtOnce;
    if n == 0 {
    } else {
      BurstStored(r, n - 1);
      BurstLength(r, n - 1);
      assert Burst(r, n)[..n - 1] == Burst(r, n - 1);
      RepeatOverwrites(Serve(Burst(r, n - 1)), r);
    }
  }

  lemma BurstDecision(r: Request, n: nat)
    requires r.limit >= 2 && r.reachable
    ensures Decide(Serve(Burst(r, n)), r.key, r.limit, r.time).allowed
  {
    BurstStored(r, n);
    var keys := Serve(Burst(r, n));
    var found := DropScores(Members(keys, r.key, r.time), 0.0, r.time - WINDOW);
    SubsetSize(found, {(r.time, r.who)});
  }

  function Copies(a: Attempt, n: nat): seq<Attempt> {
    if n == 0 then [] else Copies(a, n - 1) + [a]
  }

  lemma {:induction false} CopiesCount(a: Attempt, n: nat)
    requires a.allowed
    ensures AllowedBetween(Copies(a, n), a.time - WINDOW, a.time) == n
  {
    if n == 0 {
    } else {
      CopiesCount(a, n - 1);
      assert Copies(a, n)[..|Copies(a, n)| - 1] == Copies(a, n - 1);
    }
  }

  lemma {:induction false} BurstLog(r: Request, n: nat)
    requires r.limit >= 2 && r.reachable
    ensures Log(Burst(r, n), r.key) == Copies(Attempt(r.time, r.who, r.limit, true), n)
  {
    hide Decide, Serve;
    if n == 0 {
    } else {
      BurstLog(r, n - 1);
      BurstLength(r, n - 1);
      BurstDecision(r, n - 1);
      assert Burst(r, n)[..n - 1] == Burst(r, n - 1);
    }
  }

  // At a limit of two or more, any number of requests that one limiter makes at one instant is
  // allowed: they overwrite one another.
  lemma BurstIsAllowed(r: Request, n: nat)
    requires r.limit >= 2 && r.reachable
    ensures AllowedBetween(Log(Burst(r, n), r.key), r.time - 60.0, r.time) == n
  {
    BurstLog(r, n);
    CopiesCount(Attempt(r.time, r.who, r.limit, true), n);
  }

  // ---- The documented rule: only allowed requests are recorded ----

  // The log that the documented algorithm would write for the same requests.
  function DocumentedLog(reqs: seq<Request>, key: string): seq<Attempt> {
    if reqs == [] then [] else
      var rest, r := reqs[..|reqs| - 1], reqs[|reqs| - 1];
      var h := DocumentedLog(rest, key);
      if r.key != key || !r.reachable then h
      else h + [Attempt(r.time, r.who, r.limit, AllowedBetween(h, r.time - 60.0, r.time) < r.limit)]
  }

  // Some attempt met the limit only with the help of denied ones.
  predicate Overcounted(h: seq<Attempt>) {
    h != [] &&
    var rest, a := h[..|h| - 1], h[|h| - 1];
    || Overcounted(rest)
    || AllowedBetween(rest, a.time - WINDOW, a.time) < a.limit <= InWindow(rest, a.time - WINDOW)
  }

  lemma {:induction false} AllowedAreInWindow(h: seq<Attempt>, lo: Time, hi: Time)
    ensures AllowedBetween(h, lo, hi) <= InWindow(h, lo)
  {
    if h == [] {
    } else {
      AllowedAreInWindow(h[..|h| - 1], lo, hi);
    }
  }

  lemma OvercountedSnoc(h: seq<Attempt>, a: Attempt)
    ensures Overcounted(h + [a]) <==>
      Overcounted(h) || AllowedBetween(h, a.time - WINDOW, a.time) < a.limit <= InWindow(h, a.time - WINDOW)
  {
    hide AllowedBetween, InWindow;
    assert (h + [a])[..|h|] == h;
  }

  lemma FaithfulSnoc(h: seq<Attempt>, a: Attempt)
    requires Faithful(h + [a])
    ensures a.allowed <==> InWindow(h, a.time - WINDOW) < a.limit
  {
    hide InWindow;
    assert (h + [a])[..|h|] == h;
  }

  lemma SnocIff<T>(h: seq<T>, a: T, d: seq<T>, b: T)
    ensures h + [a] == d + [b] <==> h == d && a == b
  {
    if h + [a] == d + [b] {
      assert h == (h + [a])[..|h|] == d && a == (h + [a])[|h|] == b;
    }
  }

  lemma NothingOvercounted()
    ensures !Overcounted([])
  {
  }

  // The code decides a whole run as documented exactly when no attempt met its limit only with
  // the help of denied ones.
  lemma {:induction false} DocumentedIff(reqs: seq<Request>, key: string)
    requires ClockMoves(reqs) && NoneRepeated(reqs, key)
    ensures Log(reqs, key) == DocumentedLog(reqs, key) <==> !Overcounted(Log(reqs, key))
  {
    hide Decide, Serve, Overcounted, Faithful, AllowedBetween, InWindow;
    if reqs == [] {
      NothingOvercounted();
    } else {
      var rest, r := reqs[..|reqs| - 1], reqs[|reqs| - 1];
      DocumentedIff(rest, key);
      if r.key == key && r.reachable {
        var h, d := Log(rest, key), DocumentedLog(rest, key);
        var a := Attempt(r.time, r.who, r.limit, Decide(Serve(rest), key, r.limit, r.time).allowed);
        var b := Attempt(r.time, r.who, r.limit, AllowedBetween(d, r.time - WINDOW, r.time) < r.limit);
        assert Log(reqs, key) == h + [a] && DocumentedLog(reqs, key) == d + [b];
        RunsAreFaithful(reqs, key);
        FaithfulSnoc(h, a);
        OvercountedSnoc(h, a);
        SnocIff(h, a, d, b);
        AllowedAreInWindow(h, r.time - WINDOW, r.time);
      }
    }
  }

  // Callers that obey the decision's retry time: after a denial, nothing for sixty seconds.
  predicate Patient(h: seq<Attempt>) {
    forall i, j | 0 <= i < j < |h| && !h[i].allowed :: h[j].time >= h[i].time + 60.0
  }

  lemma {:induction false} NoneDenied(h: seq<Attempt>, t: Time)
    requires forall a | a in h :: a.time <= t && (!a.allowed ==> a.time <= t - WINDOW)
    ensures InWindow(h, t - WINDOW) == AllowedBetween(h, t - WINDOW, t)
  {
    if h == [] {
    } else {
      assert h[|h| - 1] in h;
      NoneDenied(h[..|h| - 1], t);
    }
  }

  lemma {:induction false} PatientIsNotOvercounted(h: seq<Attempt>)
    requires Ordered(h) && Patient(h)
    ensures !Overcounted(h)
  {
    if h == [] {
    } else {
      var rest, a := h[..|h| - 1], h[|h| - 1];
      PatientIsNotOvercounted(rest);
      forall b | b in rest ensures b.time <= a.time && (!b.allowed ==> b.time <= a.time - WINDOW) {
        var i :| 0 <= i < |rest| && rest[i] == b;
        assert h[i] == b;
      }
      NoneDenied(rest, a.time);
    }
  }

  // For callers that wait out their denials the documented rule is what the code does.
  lemma PatientCallersSeeTheDocumentedRule(reqs: seq<Request>, key: string)
    requires ClockMoves(reqs) && NoneRepeated(reqs, key) && Patient(Log(reqs, key))
    ensures Log(reqs, key) == DocumentedLog(reqs, key)
  {
    RunsStayInStep(reqs, key);
    PatientIsNotOvercounted(Log(reqs, key));
    DocumentedIff(reqs, key);
  }

  lemma LastDocumented(reqs: seq<Request>, r: Request)
    requires r.reachable
    ensures var d := DocumentedLog(reqs, r.key);
      DocumentedLog(reqs + [r], r.key) ==
      d + [Attempt(r.time, r.who, r.limit, AllowedBetween(d, r.time - WINDOW, r.time) < r.limit)]
  {
    hide AllowedBetween;
    assert (reqs + [r])[..|reqs|] == reqs;
  }

  // One more request of a run, decided by the code and by the documented rule.
  lemma OneMore(reqs: seq<Request>, r: Request, h: seq<Attempt>, d: seq<Attempt>)
    requires ClockMoves(reqs + [r]) && NoneRepeated(reqs + [r], r.key) && r.reachable
    requires Log(reqs, r.key) == h && DocumentedLog(reqs, r.key) == d
    ensures Log(reqs + [r], r.key) == h + [Attempt(r.time, r.who, r.limit, InWindow(h, r.time - WINDOW) < r.limit)]
    ensures DocumentedLog(reqs + [r], r.key)
      == d + [Attempt(r.time, r.who, r.limit, AllowedBetween(d, r.time - WINDOW, r.time) < r.limit)]
  {
    hide Decide, Serve, Faithful, InWindow, AllowedBetween, ClockMoves, NoneRepeated, Log, DocumentedLog;
    LastLogged(reqs, r);
    LastDocumented(reqs, r);
    RunsAreFaithful(reqs + [r], r.key);
    FaithfulSnoc(h, Attempt(r.time, r.who, r.limit, Decide(Serve(reqs), r.key, r.limit, r.time).allowed));
  }

  lemma NothingLogged(key: string)
    ensures Log([], key) == [] && DocumentedLog([], key) == []
  {
  }

  function AtTime(key: string, who: LimiterId, t: Time): Request {
    Request(key, 1, t, who, true)
  }

  function Tried(who: LimiterId, t: Time, allowed: bool): Attempt {
    Attempt(t, who, 1, allowed)
  }

  lemma OneAttempt(a: Attempt, lo: Time, hi: Time)
    ensures InWindow([a], lo) == (if a.time > lo then 1 else 0)
    ensures AllowedBetween([a], lo, hi) == (if a.allowed && lo < a.time <= hi then 1 else 0)
  {
    assert [a][..|[a]| - 1] == [];
    assert InWindow([], lo) == 0 && AllowedBetween([], lo, hi) == 0;
  }

  lemma FirstIsAllowed(r: Request)
    requires r.limit >= 1 && r.time >= 0.0 && r.reachable
    ensures var h := [Attempt(r.time, r.who, r.limit, true)]; Log([r], r.key) == h && DocumentedLog([r], r.key) == h
  {
    hide Log, DocumentedLog;
    NothingLogged(r.key);
    assert [] + [r] == [r] && [] + [Attempt(r.time, r.who, r.limit, true)] == [Attempt(r.time, r.who, r.limit, true)];
    OneMore([], r, [], []);
  }

  lemma RetryIsDenied(key: string, who: LimiterId)
    ensures var reqs := [AtTime(key, who, 0.0)] + [AtTime(key, who, 40.0)];
      var h := [Tried(who, 0.0, true)] + [Tried(who, 40.0, false)];
      Log(reqs, key) == h && DocumentedLog(reqs, key) == h
  {
    hide Log, DocumentedLog;
    var a, b, first := AtTime(key, who, 0.0), AtTime(key, who, 40.0), Tried(who, 0.0, true);
    FirstIsAllowed(a);
    OneAttempt(first, 40.0 - WINDOW, 40.0);
    hide InWindow, AllowedBetween;
    OneMore([a], b, [first], [first]);
  }

  lemma RetryStillCounts(who: LimiterId)
    ensures var h := [Tried(who, 0.0, true)] + [Tried(who, 40.0, false)];
      InWindow(h, 80.0 - WINDOW) == 1 && AllowedBetween(h, 80.0 - WINDOW, 80.0) == 0
  {
    var first, retry := Tried(who, 0.0, true), Tried(who, 40.0, false);
    OneAttempt(first, 80.0 - WINDOW, 80.0);
    assert ([first] + [retry])[..1] == [first];
  }

  // At one a minute, a retry after 40 seconds is denied and moves the block on: the request at
  // 80 seconds is denied although the documented rule allows it.
  lemma RetryExtendsTheBlock(key: string, who: LimiterId)
    ensures var reqs := [AtTime(key, who, 0.0)] + [AtTime(key, who, 40.0)] + [AtTime(key, who, 80.0)];
      var h := [Tried(who, 0.0, true)] + [Tried(who, 40.0, false)];
      && Log(reqs, key) == h + [Tried(who, 80.0, false)]
      && DocumentedLog(reqs, key) == h + [Tried(who, 80.0, true)]
  {
    hide Log, DocumentedLog, InWindow, AllowedBetween;
    var reqs := [AtTime(key, who, 0.0)] + [AtTime(key, who, 40.0)];
    var h := [Tried(who, 0.0, true)] + [Tried(who, 40.0, false)];
    RetryIsDenied(key, who);
    RetryStillCounts(who);
    OneMore(reqs, AtTime(key, who, 80.0), h, h);
  }

  // Callers share a set exactly when they agree on all four parts; only the user id may
  // contain the separator.
  lemma KeysSeparateCallers(t: string, k: string, u: string, b: string, t': string, k': string, u': string, b': string)
    requires ':' !in t && ':' !in k && ':' !in b && ':' !in t' && ':' !in k' && ':' !in b'
    ensures Key(t, k, u, b) == Key(t', k', u', b') <==> t == t' && k == k' && u == u' && b == b'
    ensures Key(t, k, u, b) == "palace:rl:" + t + ":" + k + ":" + u + ":" + b
  {
    var r, r' := k + ":" + (u + ":" + b), k' + ":" + (u' + ":" + b');
    JoinLeft(t, r, t', r', ':');
    JoinLeft(k, u + ":" + b, k', u' + ":" + b', ':');
    JoinRight(u, b, u', b', ':');
    assert Key(t, k, u, b)[10..] == t + ":" + r && Key(t', k', u', b')[10..] == t' + ":" + r';
  }

  class RateLimiter {
    var keys: map<string, SortedSet> // Redis
    const self: LimiterId
    const enabled: bool

    constructor (self: LimiterId, enabled: bool)
      ensures keys == map[] && this.self == self && this.enabled == enabled
    {
      this.self, this.enabled := self, enabled;
      keys := map[];
    }

    // `reachable` is whether Redis answered; a limiter that is off or cut off lets everything by.
    method Check(tenant: string, keyId: string, user: string, bucket: string, limit: int, now: Time, reachable: bool)
      returns (d: Decision)
      modifies this
      ensures !enabled || !reachable ==> d == Decision(true, 0, limit, 0) && keys == old(keys)
      ensures enabled && reachable ==>
        var key := Key(tenant, keyId, user, bucket);
        d == Decide(old(keys), key, limit, now) && keys == old(keys)[key := Recorded(old(keys), key, now, self)]
      ensures d.limit == limit && d.retryAfter == (if d.allowed then 0 else 60)
    {
      if !enabled || !reachable {
        return Decision(true, 0, limit, 0);
      }
      var key := Key(tenant, keyId, user, bucket);
      var members := DropScores(Members(keys, key, now), 0.0, now - WINDOW);
      var current := |members| + 1;
      members := members + {(now, self)};
      keys := keys[key := SortedSet(members, now + WINDOW + 1.0)];
      if current > limit {
        return Decision(false, current, limit, 60);
      }
      return Decision(true, current, limit, 0);
    }
  }
}
