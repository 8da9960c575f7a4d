/**
 * The queue engine of server.js: the module state (ticket counter, the
 * number being served, the metrics, the map of active tickets) together
 * with the Redis sorted set, and the join, next, status and clear handlers,
 * each taken as one atomic step. Clock readings come in as parameters; the
 * messages broadcast to the connected clients are returned.
 */
module QueueEngine {
  import opened Wrappers
  import opened Codec
  import opened KeyOrder
  import opened TicketStore
  import opened Metrics
  import opened QueueStats

  /** A message broadcast to every connected client. */
  datatype Event =
    | QueueJoined(number: nat, queueLength: nat)
    | CustomerCalled(number: nat, stats: Snapshot, actualWaitTime: int)
    | QueueCleared

  /** The reply to a join: the ticket number, its 1-based position and its estimated wait in minutes. */
  datatype JoinReply = JoinReply(number: nat, position: nat, estimatedWait: real)

  /** The reply to a call for the next customer. */
  datatype ServeReply = Served(number: nat, stats: Snapshot) | QueueEmpty

  /** The ticket numbers 1..n. */
  function TicketRange(n: nat): set<nat>
  {
    if n == 0 then {} else TicketRange(n - 1) + {n}
  }

  lemma {:induction false} TicketRangeMembers(n: nat, x: nat)
    ensures x in TicketRange(n) <==> 1 <= x <= n
  {
    if n > 0 {
      TicketRangeMembers(n - 1, x);
    }
  }

  /** Issuing ticket n + 1 adds it, once, to the tickets 1..n. */
  lemma TicketRangeNext(n: nat)
    ensures multiset(TicketRange(n + 1)) == multiset(TicketRange(n)) + multiset{(n + 1) as nat}
  {
    TicketRangeMembers(n, n + 1);
  }

  ghost predicate NoDuplicates(s: seq<nat>)
  {
    forall i, j :: 0 <= i < j < |s| ==> s[i] != s[j]
  }

  /** A value at two positions of a sequence occurs at least twice in it. */
  lemma TwoOccurrences(s: seq<nat>, i: nat, j: nat)
    requires i < j < |s| && s[i] == s[j]
    ensures multiset(s)[s[i]] >= 2
  {
    assert s == s[..j] + [s[j]] + s[j + 1..];
    assert s[i] in multiset(s[..j]);
  }

  /** A sequence in which nothing occurs twice has no duplicates. */
  lemma NoDuplicatesOfCounts(s: seq<nat>)
    requires forall x :: multiset(s)[x] <= 1
    ensures NoDuplicates(s)
  {
    forall i, j | 0 <= i < j < |s| ensures s[i] != s[j] {
      if s[i] == s[j] {
        TwoOccurrences(s, i, j);
      }
    }
  }

  /** The `activeQueues` map a run of entries induces: each ticket number to its admission time. */
  function ActiveOf(s: seq<Record>): map<nat, nat>
  {
    if s == [] then map[] else ActiveOf(s[1..])[s[0].number := s[0].timestamp]
  }

  /** The active map has an entry for exactly the waiting ticket numbers. */
  lemma {:induction false} ActiveOfKeys(s: seq<Record>, n: nat)
    ensures n in ActiveOf(s) <==> n in Numbers(s)
  {
    if s != [] {
      ActiveOfKeys(s[1..], n);
      assert Numbers(s) == [s[0].number] + Numbers(s[1..]);
    }
  }

  /** When no ticket number is stored twice, the active map holds each entry's admission time. */
  lemma {:induction false} ActiveOfAt(s: seq<Record>, i: nat)
    requires i < |s| && NoDuplicates(Numbers(s))
    ensures s[i].number in ActiveOf(s) && ActiveOf(s)[s[i].number] == s[i].timestamp
  {
    NumbersAt(s, 0);
    if i > 0 {
      NumbersAt(s, i);
      assert Numbers(s[1..]) == Numbers(s)[1..];
      ActiveOfAt(s[1..], i - 1);
    }
  }

  /** Storing a ticket whose number is new adds one entry to the active map. */
  lemma {:induction false} ActiveOfInsert(s: seq<Record>, r: Record)
    requires r.number !in Numbers(s)
    ensures ActiveOf(Insert(s, r)) == ActiveOf(s)[r.number := r.timestamp]
  {
    if s != [] {
      assert Numbers(s) == [s[0].number] + Numbers(s[1..]);
      if KeyLess(r, s[0]) {
        assert ([r] + s)[1..] == s;
      } else {
        ActiveOfInsert(s[1..], r);
        assert ([s[0]] + Insert(s[1..], r))[1..] == Insert(s[1..], r);
      }
    }
  }

  /** Removing the first entry, whose number occurs nowhere else, removes its entry from the active map. */
  lemma ActiveOfPop(s: seq<Record>)
    requires s != [] && s[0].number !in Numbers(s[1..])
    ensures ActiveOf(s[1..]) == ActiveOf(s) - {s[0].number}
  {
    ActiveOfKeys(s[1..], s[0].number);
  }

  /** The estimate a join reports: its position times the average service time, in minutes. */
  function EstimatedWait(position: nat, serviceTimes: seq<int>): real
  {
    position as real * AverageMinutes(serviceTimes)
  }

  /** The engine's state: the module variables, the sorted set, and the tickets called since the last clear. */
  datatype EngineState = EngineState(
    queueCounter: nat,
    currentServing: nat,
    serviceTimes: seq<int>,
    totalServed: nat,
    active: map<nat, nat>,
    store: seq<Record>,
    served: seq<nat>)

  /**
   * The engine's state is consistent: the store is in key order and the
   * active map mirrors it; each ticket issued since the last clear, 1..
   * queueCounter, is either waiting in the store or among those called,
   * exactly once; the number being served is the last one called, and the
   * metrics window holds at most 50 service times.
   */
  ghost predicate EngineInvariant(s: EngineState)
  {
    && Sorted(s.store)
    && s.active == ActiveOf(s.store)
    && multiset(s.served) + multiset(Numbers(s.store)) == multiset(TicketRange(s.queueCounter))
    && |s.served| == s.totalServed
    && s.currentServing == (if s.totalServed == 0 then 0 else s.served[s.totalServed - 1])
    && |s.serviceTimes| <= WindowCapacity
  }

  /** The state after ticket queueCounter + 1 is admitted at time `now`. */
  function Joined(s: EngineState, now: nat): EngineState
  {
    var n := s.queueCounter + 1;
    EngineState(n, s.currentServing, s.serviceTimes, s.totalServed,
                s.active[n := now], Insert(s.store, Record(n, now)), s.served)
  }

  /** The state after the first entry is called, having waited `waitTime`. */
  function Called(s: EngineState, waitTime: int): EngineState
    requires s.store != []
  {
    var first := s.store[0];
    EngineState(s.queueCounter, first.number, Slide(s.serviceTimes, waitTime), s.totalServed + 1,
                s.active - {first.number}, s.store[1..], s.served + [first.number])
  }

  lemma {:induction false} TicketRangeSize(n: nat)
    ensures |TicketRange(n)| == n
  {
    if n > 0 {
      TicketRangeSize(n - 1);
      TicketRangeMembers(n - 1, n);
    }
  }

  /** When the called and the waiting tickets together are the tickets 1..q, ticket x is counted once if issued and never otherwise. */
  lemma TicketCounts(q: nat, served: seq<nat>, waiting: seq<nat>, x: nat)
    requires multiset(served) + multiset(waiting) == multiset(TicketRange(q))
    ensures multiset(served)[x] + multiset(waiting)[x] == if 1 <= x <= q then 1 else 0
  {
    TicketRangeMembers(q, x);
    var m := multiset(TicketRange(q));
    assert m[x] == if x in TicketRange(q) then 1 else 0;
    assert (multiset(served) + multiset(waiting))[x] == multiset(served)[x] + multiset(waiting)[x];
  }

  /**
   * When the called and the waiting tickets together are the tickets 1..q:
   * none occurs twice, every issued ticket is called or waiting but never
   * both, and q is the number called plus the number waiting.
   */
  lemma CountsAccounting(q: nat, served: seq<nat>, waiting: seq<nat>)
    requires multiset(served) + multiset(waiting) == multiset(TicketRange(q))
    ensures NoDuplicates(served) && NoDuplicates(waiting)
    ensures forall n :: (n in served || n in waiting) <==> 1 <= n <= q
    ensures forall n :: !(n in served && n in waiting)
    ensures q == |served| + |waiting|
  {
    forall x: nat ensures multiset(served)[x] + multiset(waiting)[x] == if 1 <= x <= q then 1 else 0 {
      TicketCounts(q, served, waiting, x);
    }
    NoDuplicatesOfCounts(served);
    NoDuplicatesOfCounts(waiting);
    forall n: nat ensures ((n in served || n in waiting) <==> 1 <= n <= q) && !(n in served && n in waiting) {
      TicketCounts(q, served, waiting, n);
      assert n in served <==> n in multiset(served);
      assert n in waiting <==> n in multiset(waiting);
    }
    TicketRangeSize(q);
    assert |multiset(served) + multiset(waiting)| == |multiset(TicketRange(q))|;
  }

  /**
   * What the invariant guarantees about the tickets: every ticket issued
   * since the last clear is either waiting (and in the active map under its
   * admission time) or was called, never both; none was called twice or is
   * stored twice; the counter is the number waiting plus the number called.
   */
  lemma TicketAccounting(s: EngineState)
    requires EngineInvariant(s)
    ensures NoDuplicates(s.served)
    ensures NoDuplicates(Numbers(s.store))
    ensures forall n :: n in s.active <==> n in Numbers(s.store)
    ensures forall n :: (n in s.served || n in s.active) <==> 1 <= n <= s.queueCounter
    ensures forall n :: !(n in s.served && n in s.active)
    ensures forall i :: 0 <= i < |s.store| ==>
      s.store[i].number in s.active && s.active[s.store[i].number] == s.store[i].timestamp
    ensures s.queueCounter == |s.store| + s.totalServed
  {
    var waiting: seq<nat> := Numbers(s.store);
    CountsAccounting(s.queueCounter, s.served, waiting);
    forall n ensures n in s.active <==> n in waiting {
      ActiveOfKeys(s.store, n);
    }
    forall i | 0 <= i < |s.store| ensures s.store[i].number in s.active && s.active[s.store[i].number] == s.store[i].timestamp {
      ActiveOfAt(s.store, i);
    }
  }

  /** Issuing ticket q + 1 and storing it keeps every issued ticket accounted for once. */
  lemma AccountingAfterJoin(q: nat, served: seq<nat>, waiting: seq<nat>, waiting': seq<nat>)
    requires multiset(served) + multiset(waiting) == multiset(TicketRange(q))
    requires multiset(waiting') == multiset(waiting) + multiset{(q + 1) as nat}
    ensures multiset(served) + multiset(waiting') == multiset(TicketRange(q + 1))
  {
    TicketRangeNext(q);
    assert multiset(served) + multiset(waiting') == (multiset(served) + multiset(waiting)) + multiset{(q + 1) as nat};
  }

  /** A join keeps the invariant; the ticket it admits is not yet stored, and the store grows by one. */
  lemma JoinStep(s: EngineState, now: nat)
    requires EngineInvariant(s)
    ensures EngineInvariant(Joined(s, now))
    ensures s.queueCounter + 1 !in Numbers(s.store)
    ensures |Joined(s, now).store| == |s.store| + 1
  {
    var s' := Joined(s, now);
    var n := s.queueCounter + 1;
    var record := Record(n, now);
    var waiting: seq<nat> := Numbers(s.store);
    assert n !in waiting by {
      TicketCounts(s.queueCounter, s.served, waiting, n);
      assert n !in multiset(waiting);
    }
    assert record !in s.store by {
      if record in s.store {
        NumberOfMember(s.store, record);
      }
    }
    assert s'.store == Insert(s.store, record);
    assert Sorted(s'.store) && |s'.store| == |s.store| + 1 by {
      InsertNew(s.store, record);
    }
    assert s'.active == ActiveOf(s'.store) by {
      ActiveOfInsert(s.store, record);
    }
    assert multiset(s'.served) + multiset(Numbers(s'.store)) == multiset(TicketRange(s'.queueCounter)) by {
      InsertNumbers(s.store, record);
      AccountingAfterJoin(s.queueCounter, s.served, waiting, Numbers(s'.store));
    }
  }

  /** Calling the first entry keeps the invariant, and that entry sorts before every one left. */
  lemma ServeStep(s: EngineState, waitTime: int)
    requires EngineInvariant(s) && s.store != []
    ensures EngineInvariant(Called(s, waitTime))
    ensures forall r :: r in s.store[1..] ==> KeyLess(s.store[0], r)
  {
    var first := s.store[0];
    var waiting: seq<nat> := Numbers(s.store);
    var rest: seq<nat> := Numbers(s.store[1..]);
    assert waiting == [first.number] + rest;
    TicketCounts(s.queueCounter, s.served, waiting, first.number);
    assert multiset(waiting) == multiset{first.number} + multiset(rest);
    ActiveOfPop(s.store);
    PopMinIsMinimum(s.store);
    SlideKeepsMostRecent(s.serviceTimes, waitTime);
    assert multiset(s.served + [first.number]) == multiset(s.served) + multiset{first.number};
  }

  /**
   * The ticket called next is the one admitted earliest; tickets admitted in
   * the same millisecond are called in the order of their numbers' text.
   */
  lemma CalledIsEarliest(s: EngineState)
    requires EngineInvariant(s) && s.store != []
    ensures forall r :: r in s.store[1..] ==> s.store[0].timestamp <= r.timestamp
    ensures forall r :: r in s.store[1..] && r.timestamp == s.store[0].timestamp ==>
      LexLess(Digits(s.store[0].number), Digits(r.number))
  {
    PopMinIsMinimum(s.store);
  }

  /**
   * A ticket admitted later than every waiting one goes to the back: the
   * position a join reports is then the new length of the queue.
   */
  lemma JoinLaterGoesLast(s: EngineState, now: nat)
    requires forall r :: r in s.store ==> r.timestamp < now
    ensures Joined(s, now).store == s.store + [Record(s.queueCounter + 1, now)]
    ensures CountBefore(s.store, Record(s.queueCounter + 1, now)) + 1 == |Joined(s, now).store|
  {
    InsertLatest(s.store, Record(s.queueCounter + 1, now));
  }

  /**
   * The 1-based index of the first entry carrying ticket `n` in an
   * ascending scan of `entries`, or 0 when there is none.
   */
  method PositionOf(entries: seq<Record>, n: nat) returns (position: nat)
    ensures position <= |entries|
    ensures position > 0 ==> entries[position - 1].number == n
    ensures forall i :: 0 <= i < |entries| && (position == 0 || i < position - 1) ==> entries[i].number != n
  {
    var i := 0;
    while i < |entries|
      invariant 0 <= i <= |entries|
      invariant forall j :: 0 <= j < i ==> entries[j].number != n
    {
      if entries[i].number == n {
        return i + 1;
      }
      i := i + 1;
    }
    return 0;
  }

  /**
   * The position a join reports: scanning the store after the new ticket
   * has been added finds it right after the entries that sort before it.
   */
  method TicketPosition(store: seq<Record>, record: Record) returns (position: nat)
    requires Sorted(store) && record.number !in Numbers(store)
    ensures position == CountBefore(store, record) + 1
  {
    if record in store {
      NumberOfMember(store, record);
    }
    var entries := Insert(store, record);
    var k := CountBefore(store, record);
    InsertNew(store, record);
    InsertNumbers(store, record);
    position := PositionOf(entries, record.number);
    if position == 0 {
      NumbersAt(entries, k);
    } else if position - 1 != k {
      var i: nat := position - 1;
      NumbersAt(entries, i);
      NumbersAt(entries, k);
      var ns: seq<nat> := Numbers(entries);
      if i < k {
        TwoOccurrences(ns, i, k);
      } else {
        TwoOccurrences(ns, k, i);
      }
    }
  }

  class QueueEngine {
    var queueCounter: nat
    var currentServing: nat
    var serviceTimes: seq<int>
    var totalServed: nat
    /** Ticket number to admission time, for every ticket admitted and not yet called. */
    var active: map<nat, nat>
    /** The sorted set "queue", in ascending key order. */
    var store: seq<Record>
    /** The ticket numbers called since the last clear, oldest first. */
    ghost var served: seq<nat>

    /** The fields, taken together. */
    ghost function State(): EngineState
      reads this
    {
      EngineState(queueCounter, currentServing, serviceTimes, totalServed, active, store, served)
    }

    ghost predicate Valid()
      reads this
    {
      EngineInvariant(State())
    }

    /** The state at start-up, after the store has been flushed. */
    constructor ()
      ensures Valid()
      ensures queueCounter == 0 && currentServing == 0 && totalServed == 0
      ensures serviceTimes == [] && active == map[] && store == [] && served == []
    {
      queueCounter, currentServing, totalServed := 0, 0, 0;
      serviceTimes, active, store := [], map[], [];
      served := [];
    }

    /**
     * The status snapshot: the first five members of the store are decoded
     * back into ticket numbers, next to the counters and the average.
     */
    method Status() returns (stats: Snapshot)
      ensures stats.currentServing == currentServing && stats.totalServedToday == totalServed
      ensures stats.queueLength == |store|
      ensures stats.nextInQueue == FirstNumbers(store, PreviewSize)
      ensures stats.averageWaitTime == AverageMinutes(serviceTimes)
    {
      NextInQueueOfStore(store);
      stats := Snapshot(currentServing, |store|, NextInQueue(Members(store)), AverageMinutes(serviceTimes), totalServed);
    }

    /**
     * Admits the next ticket at time `now`: it takes the next number, is
     * stored under its timestamp, and is told its position among the
     * entries and its estimated wait; every client hears of the new length.
     */
    method Join(now: nat) returns (reply: JoinReply, broadcast: Event)
      requires Valid()
      modifies this
      ensures Valid()
      ensures reply.number == old(queueCounter) + 1 && queueCounter == reply.number
      ensures store == Insert(old(store), Record(reply.number, now))
      ensures |store| == |old(store)| + 1
      ensures reply.position == CountBefore(old(store), Record(reply.number, now)) + 1
      ensures reply.estimatedWait == EstimatedWait(reply.position, serviceTimes)
      ensures active == old(active)[reply.number := now]
      ensures broadcast == QueueJoined(reply.number, |store|)
      ensures currentServing == old(currentServing) && serviceTimes == old(serviceTimes)
      ensures totalServed == old(totalServed) && served == old(served)
    {
      ghost var before := State();
      JoinStep(before, now);
      var number := queueCounter + 1;
      var record := Record(number, now);
      var position := TicketPosition(store, record);
      var entries := Insert(store, record);
      reply := JoinReply(number, position, EstimatedWait(position, serviceTimes));
      queueCounter, store, active := number, entries, active[number := now];
      assert State() == Joined(before, now);
      broadcast := QueueJoined(number, |entries|);
    }

    /**
     * Takes the entry with the smallest key out of the store (ZPOPMIN),
     * records how long it waited, and makes it the ticket being served.
     */
    method CallFirst(now: nat) returns (first: Record)
      requires Valid() && store != []
      modifies this
      ensures Valid()
      ensures first == old(store)[0]
      ensures store == old(store)[1..]
      ensures forall r :: r in store ==> KeyLess(first, r)
      ensures currentServing == first.number
      ensures serviceTimes == Slide(old(serviceTimes), now - first.timestamp)
      ensures totalServed == old(totalServed) + 1
      ensures active == old(active) - {first.number}
      ensures queueCounter == old(queueCounter)
      ensures served == old(served) + [first.number]
    {
      first := store[0];
      var waitTime := now - first.timestamp;
      var window := serviceTimes + [waitTime];
      if |window| > WindowCapacity {
        window := window[1..];
      }
      assert window == Slide(serviceTimes, waitTime);
      ghost var before := State();
      store, currentServing, serviceTimes, totalServed, active :=
        store[1..], first.number, window, totalServed + 1, active - {first.number};
      served := served + [first.number];
      ServeStep(before, waitTime);
      assert State() == Called(before, waitTime);
    }

    /**
     * Calls the next customer at time `now`: removes the entry with the
     * smallest key, records how long it waited, and announces it with a
     * fresh status snapshot; an empty queue changes nothing and announces
     * nothing.
     */
    method ServeNext(now: nat) returns (reply: ServeReply, broadcast: Option<Event>)
      requires Valid()
      modifies this
      ensures Valid()
      ensures old(store) == [] ==> reply == QueueEmpty && broadcast == None && unchanged(this)
      ensures old(store) != [] ==>
        var first := old(store)[0];
        && store == old(store)[1..]
        && (forall r :: r in store ==> KeyLess(first, r))
        && currentServing == first.number
        && serviceTimes == Slide(old(serviceTimes), now - first.timestamp)
        && totalServed == old(totalServed) + 1
        && active == old(active) - {first.number}
        && queueCounter == old(queueCounter)
        && served == old(served) + [first.number]
        && reply.Served? && reply.number == first.number
        && reply.stats == Snapshot(first.number, |store|, FirstNumbers(store, PreviewSize),
                                   AverageMinutes(serviceTimes), totalServed)
        && broadcast == Some(CustomerCalled(first.number, reply.stats, WaitMinutes(now - first.timestamp)))
    {
      if |store| == 0 {
        return QueueEmpty, None;
      }
      var first := CallFirst(now);
      var stats := Status();
      reply := Served(first.number, stats);
      broadcast := Some(CustomerCalled(first.number, stats, WaitMinutes(now - first.timestamp)));
    }

    /** Empties the store and resets every counter, the metrics and the active map. */
    method Clear() returns (broadcast: Event)
      modifies this
      ensures Valid()
      ensures store == [] && queueCounter == 0 && currentServing == 0
      ensures serviceTimes == [] && totalServed == 0 && active == map[] && served == []
      ensures broadcast == QueueCleared
    {
      store := [];
      queueCounter := 0;
      currentServing := 0;
      serviceTimes, totalServed := [], 0;
      active := map[];
      served := [];
      broadcast := QueueCleared;
    }
  }
}
