# Queue engine of the ticket-queue prototype

This project models the ticket queue engine of the Express server in
`server.js`. The server hands out numbered tickets and keeps the waiting
ones in a Redis sorted set named `queue`. The score of each entry is its
admission time in milliseconds and the member is the JSON text
`{"number":N,"timestamp":T,"estimatedWait":0}`. The server also keeps
module state: the ticket counter, the number being served, the
service-time metrics and a map of active tickets. Four handlers act on
all of this:

- **join** issues the next ticket and stores it. It reports the ticket's
  1-based position in key order and its estimated wait, and tells every
  client the new queue length.
- **next** pops the entry with the smallest key. It records how long the
  entry waited, keeping only the last 50 waits, and announces the call
  with a status snapshot.
- **status** returns the snapshot. The snapshot has the length, the
  numbers of the first five entries, the average service time in minutes
  (rounded to tenths, 3.5 before anything is served) and the served count.
- **clear** flushes the store and resets the state.

Layout of the model:

- `codec.dfy` (`Codec`): the stored record, its JSON text and the parser
  that reads it back.
- `order.dfy` (`KeyOrder`): the sorted-set order, which is score first and
  then the member's bytes.
- `store.dfy` (`TicketStore`): the sorted set as a sequence kept in key
  order, with ZADD as `Insert` and ZPOPMIN as taking the head.
- `metrics.dfy` (`Metrics`): the service-time window and the averages.
- `stats.dfy` (`QueueStats`): the status snapshot.
- `engine.dfy` (`QueueEngine`): the handlers. They are methods of the
  class `QueueEngine`, whose fields are the module state and the store.

Each handler runs as one atomic step. Its invariant, `EngineInvariant`,
says four things:

- The store is sorted, and the active map mirrors the store.
- Every ticket issued since the last clear is either waiting or already
  called, exactly once.
- The number being served is the last ticket called.
- The window holds at most 50 entries.

Between equal scores Redis orders members by their bytes. The member is
the whole JSON text, so ties between tickets admitted in the same
millisecond are not broken by ticket number but by the number's decimal
text. That agrees with ticket order only between numbers with the same
count of digits (`SameWidthTiesByNumber`): ticket 10 is called before
ticket 9 when both arrived in the same millisecond (`TenBeforeNineOnTie`).

## Model

| member | source | states |
|---|---|---|
| Codec.Serialize | server.js:80-85 | the member text join stores: what `JSON.stringify` writes for `{number, timestamp, estimatedWait: 0}`, the estimate being filled in only after the ZADD; its inverse is `Codec.Decode` (`Codec.DecodeExact`) |
| Codec.Decode | server.js:57 | `JSON.parse(data).number` on a member: the record when the member has the engine's layout, nothing otherwise; a number of more than one digit may not start with 0, as in JSON. Its properties are the `Codec.DecodeExact` row |
| Codec.DecodeExact | server.js:57 | a member decodes to a record if and only if it is exactly the text stored for that record, so the parser and the writer are inverse on every member, both ways |
| Codec.DigitsOfValue | server.js:57 | a digit run without a leading zero is the decimal text of the value it is read as |
| Codec.DecodeSerialize | server.js:80-85 | parsing the stored JSON text of any record gives back that record (the stringify/parse round trip that join, next and status rely on) |
| Codec.SerializeInjective | server.js:85 | distinct tickets are stored as distinct members, so ZADD never merges two tickets |
| KeyOrder.KeyLessIsSortedSetLess | server.js:85 | the sorted-set order (timestamp score, then member bytes) is the same as the order by timestamp, then by the decimal text of the ticket number |
| KeyOrder.KeyTotal | server.js:85 | two different stored records are always ordered one way or the other, so the set has a single ascending order |
| KeyOrder.KeyTransitive | server.js:85 | the key order is transitive |
| KeyOrder.SameWidthTiesByNumber | server.js:85 | for two tickets admitted in the same millisecond whose numbers have the same width, the sorted-set order is exactly the numeric order |
| KeyOrder.TenBeforeNineOnTie | server.js:85 | with equal timestamps, ticket 10 sorts before ticket 9 and not the other way round |
| KeyOrder.DigitsOrder | server.js:85 | between decimal texts of equal length, the text order is the numeric order, both ways |
| TicketStore.Insert | server.js:85 | ZADD with the timestamp as score: the result holds the new record, every old one, and nothing else; its order and position are the `TicketStore.InsertNew` row |
| TicketStore.CountBefore | server.js:87-89 | the number of stored entries whose key is smaller than the record's, at most the store's length; the join's position is this plus one (`QueueEngine.TicketPosition`) |
| TicketStore.InsertNew | server.js:85 | ZADD of a new record into a sorted store keeps it sorted, adds exactly that record (as a multiset) and places it after exactly the entries whose key is smaller |
| TicketStore.InsertExisting | server.js:85 | ZADD of a member already present leaves the set unchanged |
| TicketStore.InsertLatest | server.js:85-89 | a record later than every stored one goes to the back, and its position equals the new length |
| TicketStore.InsertNumbers | server.js:85 | storing a new record adds its ticket number once to the multiset of stored numbers |
| TicketStore.PopMinIsMinimum | server.js:112 | ZPOPMIN removes the entry whose key is smaller than every remaining entry, and the rest stays sorted |
| TicketStore.FirstNumbersOfPrefix | server.js:53 | the numbers of the first k entries are the numbers of the store cut after k entries |
| Metrics.Slide | server.js:119-122 | recording a service time (push, then shift past 50): the new time is last, and a window of at most 50 stays at most 50; `Metrics.SlideAllKeepsMostRecent` shows which 50 |
| Metrics.AverageMinutes | server.js:44-48 | `calculateAverageServiceTime`: 3.5 while no time is recorded, otherwise within 0.05 of the exact mean of the window in minutes |
| Metrics.WaitMinutes | server.js:129 | `actualWaitTime`: the whole number of minutes in (x - 0.5, x + 0.5] for the exact wait x in minutes, which is `Math.round` |
| Metrics.SlideKeepsMostRecent | server.js:119-122 | one push-then-shift keeps the window at no more than 50 entries, those are the 50 most recent, and the newest is last |
| Metrics.SlideAllKeepsMostRecent | server.js:119-122 | after any number of calls, the window is exactly the last 50 service times recorded, in order |
| Metrics.AverageBounds | server.js:44-48 | when every recorded time lies between lo and hi ms, the reported average lies between lo and hi minutes, up to 0.05 of rounding |
| Metrics.RoundTenthsClose | server.js:47 | rounding to one decimal moves a value by at most 0.05 |
| Metrics.RoundTenthsExact | server.js:47 | a value that already has one decimal is not changed by the rounding |
| Metrics.AverageOfOneAndTwoMinutes | server.js:44-48 | waits of 60000 ms and 120000 ms give an average of 1.5 minutes |
| Metrics.SumBounds | server.js:46 | the sum of n values between lo and hi lies between lo*n and hi*n |
| Metrics.MeanBounds | server.js:47 | a total between lo*n and hi*n gives a mean between lo and hi |
| Metrics.RoundHalfUpClose | server.js:129 | Math.round returns an integer in (x - 0.5, x + 0.5] |
| QueueStats.NextInQueue | server.js:53-62 | the `nextInQueue` scan of the first five members: at most five numbers and no more than there are members; the numbers are those of the first five entries (`QueueStats.NextInQueueOfStore`) |
| QueueStats.DecodedNumbersOfStore | server.js:54-62 | parsing every member the engine wrote recovers every ticket number, in store order |
| QueueStats.NextInQueueOfStore | server.js:53-62 | the preview is exactly the numbers of the first five entries, and it has at most five |
| QueueStats.DecodedNumbersAppend | server.js:54-62 | scanning two runs of members one after the other gives the two results one after the other |
| QueueStats.UndecodableSkipped | server.js:56-62 | a member that does not decode contributes nothing to the preview; for a member that is not JSON this is the source's catch-and-filter (other JSON layouts: see "Left out") |
| QueueStats.CorruptPreview | server.js:53-62 | an unparsable member among the first five is dropped, and the others keep their order |
| QueueEngine.TicketRangeMembers | server.js:78 | the tickets issued since the last clear are exactly 1..queueCounter |
| QueueEngine.ActiveOf | server.js:93-123 | the `activeQueues` map the waiting entries induce, each ticket number to its admission time; its keys are the `QueueEngine.ActiveOfKeys` row |
| QueueEngine.ActiveOfKeys | server.js:93-123 | the active map has a key for exactly the waiting ticket numbers |
| QueueEngine.ActiveOfInsert | server.js:93 | storing a new ticket adds exactly its number and timestamp to the active map |
| QueueEngine.ActiveOfPop | server.js:123 | removing the head removes exactly its number from the active map |
| QueueEngine.CountsAccounting | server.js:78-120 | when the called and waiting tickets together are 1..q, neither list repeats a ticket, each ticket in 1..q is called or waiting but not both, and q is the sum of the two counts |
| QueueEngine.TicketAccounting | server.js:32-123 | under the invariant, no ticket is served twice or stored twice. The active map covers exactly the waiting tickets, with their admission times. Called or active means issued (in 1..queueCounter), never both. The counter equals waiting plus served. |
| QueueEngine.JoinStep | server.js:76-93 | a join keeps the invariant, the ticket it issues is not already stored, and the store grows by one |
| QueueEngine.ServeStep | server.js:110-123 | a call keeps the invariant, and the entry it takes sorts before every entry left |
| QueueEngine.CalledIsEarliest | server.js:112 | the ticket called has the earliest admission time; among tickets admitted in the same millisecond, it has the smallest number text |
| QueueEngine.JoinLaterGoesLast | server.js:85-89 | a ticket admitted after every waiting ticket is appended at the back, and its reported position is the new queue length |
| QueueEngine.PositionOf | server.js:88-89 | the findIndex+1 scan returns the 1-based index of the first entry with the number, or 0 when no entry has it |
| QueueEngine.TicketPosition | server.js:87-89 | scanning the store after the ZADD finds the new ticket right after the entries that sort before it |
| QueueEngine.QueueEngine.constructor | server.js:32-41 | start-up state: empty store, zero counters, an empty window and an empty active map; the invariant holds |
| QueueEngine.QueueEngine.Status | server.js:148-151 | the snapshot carries the current number, the store length, the numbers of the first five entries, the average and the served count |
| QueueEngine.QueueEngine.Join | server.js:76-107 | join keeps the invariant. It issues number queueCounter+1 and stores the record under its timestamp. The reported position is one more than the number of entries with a smaller key, and the estimate is position times the average. The active map gains the ticket, the broadcast carries the new length, and nothing else changes. |
| QueueEngine.QueueEngine.CallFirst | server.js:112-123 | popping keeps the invariant. It takes the old head, which sorts before every remaining entry, and makes it the number served. The window slides by the wait, the served count grows by one, and the ticket leaves the active map. |
| QueueEngine.QueueEngine.ServeNext | server.js:110-145 | on an empty queue, nothing changes and nothing is announced. Otherwise the call happens as in CallFirst, and both the reply and the customer-called event carry the ticket, the fresh snapshot and the wait rounded to whole minutes. |
| QueueEngine.QueueEngine.Clear | server.js:154-163 | clear empties the store, resets every counter, the window and the active map, keeps the invariant, and announces queue-cleared |

## Left out

- HTTP routing, the JSON response bodies' `success`/`message` fields and the Express middleware are not modelled; the replies are returned values.
- The socket.io broadcasts are returned as `Event` values; the connection handler that sends a snapshot to a new client is not part of this model.
- The Redis client, the `await`s between Redis calls and any interleaving of concurrent requests are not modelled: each handler is one atomic step on the state and the store.
- The start-up connection check and logging are left out; the constructor models the flushed store at start-up.
- `Date.now()` readings are parameters (`now`), and `responseTime` is not modelled. The status handler's `req.startTime` is never set, so its `responseTime` is not a number.
- Numbers are exact: ticket numbers and timestamps are unbounded naturals, and the average uses exact reals, with `toFixed(1)` modelled as rounding half up to tenths. Binary floating point and JavaScript's safe-integer limit are not captured.
- QueueEngine.QueueEngine.Status: `averageWaitTime` is the number the rounded text stands for. The source returns the string that `toFixed` produces, or the number 3.5 when the window is empty.
- QueueEngine.QueueEngine.CallFirst: takes the popped record directly and does not parse its member again. For records the engine wrote, `Codec.DecodeSerialize` shows that parsing gives the same record.
- QueueEngine.QueueEngine.Join: the position scan assumes every member in the store was written by the engine. A member that is not JSON makes the code's `JSON.parse` inside `findIndex` throw, and that path is not modelled.
- Codec.Decode: decoding is exact only for the engine's own layout. Other well-formed JSON members are read as nothing. That covers other key orders, whitespace and extra fields, where the source reads `number`. It also covers an object without `number`, where the source yields `undefined`. Numbers with a leading zero are rejected, as `JSON.parse` rejects them.
- QueueStats.UndecodableSkipped: holds in the source for members that are not JSON. A member in another JSON layout is skipped here, but in the source it adds its `number`, or `undefined`, to the preview. Only the engine writes to the store, so only its layout occurs.
- The store is flushed only by the clear handler and at start-up; other writers to the same Redis database are not modelled.
- The React frontend and everything outside `server.js` are not part of this model.
