/**
 * The response cache and the per-request dispatch of handleRequest (main.go).
 * The wall clock is the parameter `now` (integer nanoseconds of Go's monotonic
 * clock) and the upstream exchange of resolveUpstream is the parameter
 * `upstream`: the reply datagram, or None when dialling, writing or reading failed.
 */
module Dispatcher {
  import opened Wrappers
  import opened Wire
  import opened QueryParser
  import opened TtlParser

  const Colon: Byte := 0x3A
  const Zero: Byte := 0x30

  predicate IsDigit(b: Byte)
  {
    Zero <= b <= Zero + 9
  }

  /** fmt's %d of a non-negative integer: decimal digits, no leading zeros. */
  function Decimal(n: nat): (s: seq<Byte>)
    ensures 0 < |s|
    ensures forall k :: 0 <= k < |s| ==> IsDigit(s[k])
    decreases n
  {
    if n < 10 then [Zero + n] else Decimal(n / 10) + [Zero + n % 10]
  }

  /** The number a string of decimal digits denotes. */
  function DigitsValue(s: seq<Byte>): int
  {
    if s == [] then 0 else DigitsValue(s[.. |s| - 1]) * 10 + (s[|s| - 1] - Zero)
  }

  lemma {:induction false} DecimalRoundTrip(n: nat)
    ensures DigitsValue(Decimal(n)) == n
    decreases n
  {
    if n >= 10 {
      DecimalRoundTrip(n / 10);
      var s := Decimal(n);
      assert s[.. |s| - 1] == Decimal(n / 10);
    }
  }

  /** The cache key fmt.Sprintf("%s:%d", qname, qtype). */
  function CacheKey(q: Question): seq<Byte>
  {
    q.name + [Colon] + Decimal(q.qtype)
  }

  /** In a + ":" + d with no colon in d, the colon after a is the last one. */
  lemma LastColon(a: seq<Byte>, d: seq<Byte>)
    requires Colon !in d
    ensures (a + [Colon] + d)[|a|] == Colon
    ensures forall j :: |a| < j < |a + [Colon] + d| ==> (a + [Colon] + d)[j] != Colon
  {
    var k := a + [Colon] + d;
    forall j | |a| < j < |k|
      ensures k[j] != Colon
    {
      assert k[j] == d[j - |a| - 1];
    }
  }

  /** A key splits at its last colon in one way only. */
  lemma SplitAtLastColon(a: seq<Byte>, d: seq<Byte>, a': seq<Byte>, d': seq<Byte>)
    requires a + [Colon] + d == a' + [Colon] + d'
    requires Colon !in d && Colon !in d'
    ensures a == a' && d == d'
  {
    var k := a + [Colon] + d;
    LastColon(a, d);
    LastColon(a', d');
    assert |a| == |a'|;
    assert a == k[.. |a|] && a' == k[.. |a'|];
    assert d == k[|a| + 1 ..] && d' == k[|a'| + 1 ..];
  }

  /** Distinct (name, type) questions get distinct cache keys. */
  lemma CacheKeyInjective(q: Question, q': Question)
    ensures CacheKey(q) == CacheKey(q') ==> q == q'
  {
    if CacheKey(q) == CacheKey(q') {
      var d, d' := Decimal(q.qtype), Decimal(q'.qtype);
      assert Colon !in d && Colon !in d';
      SplitAtLastColon(q.name, d, q'.name, d');
      DecimalRoundTrip(q.qtype);
      DecimalRoundTrip(q'.qtype);
    }
  }

  /** cacheEntry: the stored reply, when it was stored, and how long it is valid (nanoseconds). */
  datatype Entry = Entry(msg: seq<Byte>, timestamp: int, ttl: nat)

  /** time.Since(entry.timestamp) < entry.ttl */
  predicate IsFresh(e: Entry, now: int)
  {
    now - e.timestamp < e.ttl
  }

  /** The stored reply with the client's transaction id copied over its first two octets. */
  function WithClientId(msg: seq<Byte>, query: seq<Byte>): seq<Byte>
  {
    if |msg| >= 2 && |query| >= 2 then query[.. 2] + msg[2 ..] else msg
  }

  /** resolveUpstream without the network: the reply and parseTTL of it, or no reply and 0. */
  method ResolveUpstream(upstream: Option<seq<Byte>>) returns (resp: Option<seq<Byte>>, ttl: nat)
    ensures resp == upstream
    ensures ttl == if upstream.Some? then AnswerTTL(upstream.value) * NanosPerSecond else 0
  {
    match upstream
    case None =>
      return None, 0;
    case Some(reply) =>
      ttl := ParseTTL(reply);
      resp := Some(reply);
  }

  /** What one request does: the datagram sent (if any), whether upstream was asked, the new cache. */
  datatype Outcome = Outcome(sent: Option<seq<Byte>>, forwarded: bool, cache: map<seq<Byte>, Entry>)

  /** One run of handleRequest as a transition of the cache map. */
  function Step(cache: map<seq<Byte>, Entry>, query: seq<Byte>, now: int, upstream: Option<seq<Byte>>): Outcome
  {
    var key := CacheKey(QueryOf(query));
    if key in cache && IsFresh(cache[key], now) then
      Outcome(Some(WithClientId(cache[key].msg, query)), false, cache)
    else
      var cleared := if key in cache then cache - {key} else cache;
      match upstream
      case None => Outcome(None, true, cleared)
      case Some(reply) =>
        Outcome(Some(reply), true, cleared[key := Entry(reply, now, AnswerTTL(reply) * NanosPerSecond)])
  }

  /** A request is served from the cache exactly when its key holds an entry younger than its ttl. */
  lemma ServedFromCacheIff(cache: map<seq<Byte>, Entry>, query: seq<Byte>, now: int, upstream: Option<seq<Byte>>)
    ensures var key := CacheKey(QueryOf(query));
            !Step(cache, query, now, upstream).forwarded
            <==> key in cache && now - cache[key].timestamp < cache[key].ttl
  {
  }

  /**
   * A hit sends the stored reply with the query's transaction id in octets
   * 0-1 (when both are at least two octets long), leaves the map alone and
   * does not consult upstream.
   */
  lemma CacheHitRewritesId(cache: map<seq<Byte>, Entry>, query: seq<Byte>, now: int, upstream: Option<seq<Byte>>)
    requires CacheKey(QueryOf(query)) in cache
    requires IsFresh(cache[CacheKey(QueryOf(query))], now)
    ensures var msg := cache[CacheKey(QueryOf(query))].msg;
            var o := Step(cache, query, now, upstream);
            !o.forwarded && o.cache == cache && o.sent.Some? &&
            |o.sent.value| == |msg| &&
            (|msg| >= 2 && |query| >= 2 ==> o.sent.value[.. 2] == query[.. 2] && o.sent.value[2 ..] == msg[2 ..]) &&
            (|msg| < 2 || |query| < 2 ==> o.sent.value == msg)
  {
  }

  /** With a clock that never runs backwards, an entry whose ttl is 0 is never served. */
  lemma ZeroTTLNeverServed(cache: map<seq<Byte>, Entry>, query: seq<Byte>, now: int, upstream: Option<seq<Byte>>)
    requires CacheKey(QueryOf(query)) in cache
    requires cache[CacheKey(QueryOf(query))].ttl == 0
    requires cache[CacheKey(QueryOf(query))].timestamp <= now
    ensures Step(cache, query, now, upstream).forwarded
  {
  }

  /**
   * A miss (no entry, or a stale one) whose upstream exchange fails sends
   * nothing; the key is gone afterwards and every other key keeps its entry.
   */
  lemma MissWithoutReplyDrops(cache: map<seq<Byte>, Entry>, query: seq<Byte>, now: int)
    requires var key := CacheKey(QueryOf(query)); key !in cache || !IsFresh(cache[key], now)
    ensures var key := CacheKey(QueryOf(query));
            var o := Step(cache, query, now, None);
            o.forwarded && o.sent == None && key !in o.cache &&
            o.cache.Keys == cache.Keys - {key} &&
            forall k :: k in o.cache ==> o.cache[k] == cache[k]
  {
  }

  /**
   * A miss whose upstream exchange succeeds sends the reply verbatim and maps
   * the key to (reply, now, parseTTL(reply)), replacing any earlier entry;
   * every other key keeps its entry.
   */
  lemma MissWithReplyCaches(cache: map<seq<Byte>, Entry>, query: seq<Byte>, now: int, reply: seq<Byte>)
    requires var key := CacheKey(QueryOf(query)); key !in cache || !IsFresh(cache[key], now)
    ensures var key := CacheKey(QueryOf(query));
            var o := Step(cache, query, now, Some(reply));
            o.forwarded && o.sent == Some(reply) &&
            o.cache.Keys == cache.Keys + {key} &&
            o.cache[key] == Entry(reply, now, AnswerTTL(reply) * NanosPerSecond) &&
            forall k :: k in cache && k != key ==> o.cache[k] == cache[k]
  {
  }

  /**
   * Cache round trip: after a miss stores a reply at time t0, a later request
   * for the same name and type is served from the cache, with its own
   * transaction id, exactly while less than the reply's TTL has elapsed, and
   * goes upstream again once it has.
   */
  lemma CachedReplyServedUntilExpiry(cache: map<seq<Byte>, Entry>, first: seq<Byte>, t0: int, reply: seq<Byte>,
                                     again: seq<Byte>, now: int, upstream: Option<seq<Byte>>)
    requires Step(cache, first, t0, Some(reply)).forwarded
    requires QueryOf(again) == QueryOf(first)
    ensures var o := Step(Step(cache, first, t0, Some(reply)).cache, again, now, upstream);
            (!o.forwarded <==> now - t0 < AnswerTTL(reply) * NanosPerSecond) &&
            (!o.forwarded ==> o.sent == Some(WithClientId(reply, again)))
  {
  }

  /** The labels of example.com, and the key fmt.Sprintf gives for its type A (1) question. */
  const Example: Label := [0x65, 0x78, 0x61, 0x6D, 0x70, 0x6C, 0x65]
  const Com: Label := [0x63, 0x6F, 0x6D]
  const ExampleComA: seq<Byte> := Example + [Dot] + Com + [Colon, Zero + 1]

  /** A query for example.com type A, whatever its header (transaction id) and trailing QCLASS octets. */
  function ExampleComQuery(header: seq<Byte>, rest: seq<Byte>): seq<Byte>
  {
    header + EncodeName([Example, Com]) + [0] + BE16Bytes(1) + rest
  }

  /**
   * Example: a query for example.com type A meets an empty cache and is
   * forwarded; the reply, whose TTL reads as 300 seconds, is cached under
   * "example.com:1" and sent back. The same question with another
   * transaction id is then served from the cache with that id for 300
   * seconds, and forwarded again from then on.
   */
  lemma ExampleComScenario(h1: seq<Byte>, h2: seq<Byte>, rest: seq<Byte>, reply: seq<Byte>,
                           t0: int, later: int, upstream: Option<seq<Byte>>)
    requires |h1| == HeaderSize && |h2| == HeaderSize
    requires AnswerTTL(reply) == 300
    ensures var first := Step(map[], ExampleComQuery(h1, rest), t0, Some(reply));
            var second := Step(first.cache, ExampleComQuery(h2, rest), later, upstream);
            first.forwarded && first.sent == Some(reply) &&
            first.cache == map[ExampleComA := Entry(reply, t0, 300 * NanosPerSecond)] &&
            (!second.forwarded <==> later - t0 < 300 * NanosPerSecond) &&
            (!second.forwarded ==> second.sent == Some(WithClientId(reply, ExampleComQuery(h2, rest))))
  {
    var q1, q2 := ExampleComQuery(h1, rest), ExampleComQuery(h2, rest);
    assert Join([Example, Com], Dot) == Example + [Dot] + Com;
    QueryRoundTrip(h1, [Example, Com], 1, rest);
    QueryRoundTrip(h2, [Example, Com], 1, rest);
    assert CacheKey(QueryOf(q1)) == ExampleComA;
    CachedReplyServedUntilExpiry(map[], q1, t0, reply, q2, later, upstream);
  }

  /** The global cache map of main.go with handleRequest as its one operation. */
  class Cache {
    var entries: map<seq<Byte>, Entry>

    /** make(map[string]cacheEntry): the cache starts empty. */
    constructor ()
      ensures entries == map[]
    {
      entries := map[];
    }

    method HandleRequest(query: seq<Byte>, now: int, upstream: Option<seq<Byte>>)
      returns (sent: Option<seq<Byte>>, forwarded: bool)
      modifies this
      ensures Outcome(sent, forwarded, entries) == Step(old(entries), query, now, upstream)
    {
      var qname, qtype := ParseQuery(query);
      var cacheKey := CacheKey(Question(qname, qtype));
      if cacheKey in entries {
        var entry := entries[cacheKey];
        if now - entry.timestamp < entry.ttl {
          var resp := new Byte[|entry.msg|](k requires 0 <= k < |entry.msg| => entry.msg[k]);
          if resp.Length >= 2 && |query| >= 2 {
            resp[0], resp[1] := query[0], query[1];
          }
          assert resp[..] == WithClientId(entry.msg, query);
          return Some(resp[..]), false;
        }
        entries := entries - {cacheKey};
      }
      forwarded := true;
      var resp, ttl := ResolveUpstream(upstream);
      if resp == None {
        return None, forwarded;
      }
      entries := entries[cacheKey := Entry(resp.value, now, ttl)];
      sent := resp;
    }
  }
}
