# Caching DNS forwarder: request pipeline

A model of the request handling of a small caching DNS forwarder written in Go
(`main.go`). For each query datagram the resolver:

1. extracts the question name and type (`parseQuery`): length-prefixed labels
   from offset 12, just past the header of RFC 1035 section 4.1.1, using the
   label encoding of RFC 1035 section 3.1, joined with `.`, followed by the
   16-bit QTYPE of RFC 1035 section 4.1.2;
2. derives the cache key `name:type`;
3. serves a fresh cache entry with the client's transaction id spliced into
   octets 0-1, or deletes a stale entry;
4. on a miss, forwards the query upstream, caches the reply for the lifetime
   read from it by `parseTTL`, and sends the reply verbatim, or drops the
   request when the upstream exchange failed.

Files and modules:

- `wire.dfy`: `Wrappers.Option`, and `Wire`, which holds octets and the big-endian 16/32-bit integers.
- `query.dfy`: `QueryParser`. It holds the label walk as a specification function (`WalkLabels`, `QueryOf`), the imperative `ParseQuery` loop proved against it, and the lemmas about it.
- `ttl.dfy`: `TtlParser`. It holds the question-skipping walk (`SkipName`, `SkipQuestions`, `AnswerTTL`), the nested-loop `ParseTTL` proved against it, and the lemmas about it.
- `cache.dfy`: `Dispatcher`. It holds the key formatting and the cache entry, a pure transition `Step` of the cache map, the `Cache` class and the lemmas about `Step`. The class holds the cache map as a field, and its `HandleRequest` mutates that field and is proved equal to `Step`.

Modelling choices:

- Names are octet sequences, as Go strings are.
- Time is an integer number of nanoseconds, `now`, passed in. A stored TTL is a nanosecond count, `AnswerTTL(reply) * 10^9`, as `time.Duration(ttl) * time.Second` gives. `ParseTTL` proves that this product stays below 2^63, so the Go multiplication never overflows.
- The upstream exchange is the parameter `upstream`: the reply datagram, or `None` when dialling, writing or reading failed.
- `HandleRequest` returns the datagram written to the client (`None` when nothing is sent) and whether upstream was consulted.

Two behaviours of the code that are easy to miss:

- After a length octet that overruns the packet, the code reads the type from that octet and the next one when both are present, not 0 (`OverrunKeepsLabels`).
- On a miss the upstream reply is sent verbatim, with no id rewrite (`MissWithReplyCaches`).

`parseTTL` reads the four octets 4 past the end of the question section. It does not skip the NAME field that opens an answer record in RFC 1035 section 4.1.3. The model keeps the code's offsets. `CompressedAnswerTTL` shows the consequence: for an answer that starts with a two-octet compression pointer, the value read is `CLASS * 2^16 + TTL / 2^16`, not the TTL.

## Model

| member | source | states |
|---|---|---|
| `QueryParser.ParseQuery` | main.go:138-159 | The cursor loop returns exactly the question of the label-walk specification `QueryOf`: labels joined by `.`, and BE16 of the two octets at the stop offset or 0 |
| `QueryParser.WalkOverName` | main.go:141-152 | Walking over a name whose labels are encoded at the cursor, each behind its length octet, collects exactly those labels and resumes right after them |
| `QueryParser.WalkReadsEncodedName` | main.go:141-152 | Conversely, the labels collected are encoded at the start of the walk, each behind its length octet. The walk stopped just past them: past a zero octet, at the end of the packet, or at a length octet that overruns the packet |
| `QueryParser.QueryRoundTrip` | main.go:138-158 | 12 header octets, labels each behind a non-zero length octet, a zero octet, BE16(t) and any trailing octets parse to (labels joined by `.`, t) |
| `QueryParser.ShortPacketHasEmptyQuestion` | main.go:140-158 | A packet of at most 12 octets gives the empty name and type 0 |
| `QueryParser.OverrunKeepsLabels` | main.go:147-157 | A length octet that overruns the packet stops the walk and keeps the labels read so far. The type is then BE16 of that length octet and the next one when present, else 0 |
| `QueryParser.UnterminatedNameHasTypeZero` | main.go:141-157 | Labels that end exactly at the end of the packet, with no zero terminator, give their joined name and type 0 |
| `QueryParser.JoinedLength` | main.go:153 | The joined name is one octet shorter than the encoded labels, or empty for no labels |
| `QueryParser.NameFitsPacket` | main.go:141-153 | The joined name is never longer than the packet minus its 12-octet header |
| `TtlParser.SkipName` | main.go:119-122 | The label jump loop ends at or past its start, on a zero octet or at or past the end of the reply. Its decreases clause is the termination argument |
| `TtlParser.SkipQuestions` | main.go:118-130 | Skipping n questions ends at least 5n octets further on, or fails when a name runs off the end |
| `TtlParser.ParseTTL` | main.go:112-135 | The nested loops return Duration `AnswerTTL(resp) * 10^9` nanoseconds, a whole number of seconds below 2^32, and below 2^63 |
| `TtlParser.ShortReplyHasNoTTL` | main.go:113-133 | A reply shorter than 12 octets, or no longer than 22 + 5 * QDCOUNT octets, gives 0 |
| `TtlParser.UnterminatedQuestionHasNoTTL` | main.go:119-125 | With QDCOUNT > 0, a first question name that runs to the end of the reply gives 0 |
| `TtlParser.SkipOverName` | main.go:119-122 | The label jumps pass over an encoded name and resume right after it |
| `TtlParser.SkipOverQuestions` | main.go:118-130 | Skipping the encoded questions (name, zero octet, QTYPE, QCLASS) ends exactly after them |
| `TtlParser.ReplyTTLRoundTrip` | main.go:116-135 | For a header whose QDCOUNT counts the questions that follow, then 4 octets, BE32(v) and at least 3 more octets, the result is v seconds |
| `TtlParser.CompressedAnswerTTL` | main.go:131-134 | For an answer starting with a 2-octet name pointer, TYPE, CLASS, TTL, the value read is CLASS * 2^16 + TTL / 2^16 |
| `Dispatcher.Decimal` | main.go:49 | `%d` gives a non-empty string of decimal digits (so no colon) |
| `Dispatcher.DecimalRoundTrip` | main.go:49 | The digits of `%d` denote the number formatted |
| `Dispatcher.CacheKeyInjective` | main.go:48-49 | Equal keys `name:type` come only from equal (name, type) questions, even when names contain colons |
| `Dispatcher.ResolveUpstream` | main.go:84-110 | A successful exchange returns the reply and its parsed TTL in nanoseconds. A failed one returns nothing and 0 |
| `Dispatcher.ServedFromCacheIff` | main.go:51-55 | A request avoids upstream exactly when its key holds an entry with `now - timestamp < ttl` |
| `Dispatcher.CacheHitRewritesId` | main.go:54-63 | A hit sends the stored reply with octets 0-1 replaced by the query's when both have two octets, and the rest unchanged. The map is unchanged and upstream is not consulted |
| `Dispatcher.ZeroTTLNeverServed` | main.go:55 | With a clock that does not run backwards, an entry with ttl 0 is never served |
| `Dispatcher.MissWithoutReplyDrops` | main.go:65-74 | A miss or a stale entry, followed by a failed upstream exchange, sends nothing. The key is absent afterwards and every other key keeps its entry |
| `Dispatcher.MissWithReplyCaches` | main.go:70-81 | A miss with an upstream reply sends the reply verbatim and maps the key to (reply, now, parseTTL(reply)), replacing any previous entry. No other key changes |
| `Dispatcher.CachedReplyServedUntilExpiry` | main.go:51-81 | After a miss has cached a reply at t0, a request for the same question is served from the cache, with its own id, exactly while `now - t0` is below the reply's TTL |
| `Dispatcher.ExampleComScenario` | main.go:47-81 | example.com type A: it is forwarded on an empty cache and cached under `example.com:1`. A reply whose TTL reads 300 s is re-served with the new id for 300 s, and forwarded again after that |
| `Dispatcher.Cache.constructor` | main.go:19-20 | The cache map starts empty |
| `Dispatcher.Cache.HandleRequest` | main.go:47-82 | The request updates the map in place (delete of a stale entry, insert after a reply) and copies the reply into a fresh buffer before overwriting octets 0-1. Its result and new map equal the transition `Step` |

## Left out

- `main` (main.go:24-45): the UDP bind, the accept loop and the goroutine per datagram are socket I/O and concurrency.
- The network half of `resolveUpstream` (main.go:84-105): dialling, writing and reading. It is replaced by the `upstream` parameter. The 512-octet read buffer is not modelled either: the parameter is the datagram as read.
- The `sync.RWMutex` (main.go:21, 51-53, 65-67, 78-80) only serves concurrent access. Each request is modelled as one sequential transition, so races between requests for the same key are not modelled.
- `time.Now` and `time.Since` become the `now` parameter. The code reads the clock twice: `time.Since` before the upstream exchange (main.go:55) and `time.Now` after it (main.go:79). The model uses one `now` for both, so the stored timestamp is the time of the lookup, not the time the reply arrived. The model does not enforce that the clock is monotonic; only `ZeroTTLNeverServed` assumes it.
- `log` calls are not modelled. `conn.WriteToUDP` becomes the returned datagram.
- The private copies of the reply (main.go:57-58, 76-77) guard against aliasing of Go slices. Dafny sequences are values, so the copy into the cache is implicit. The hit path still copies into a fresh array.
- DNS name compression (RFC 1035 section 4.1.4) and the answer record's NAME field are handled by neither the code nor the model.
