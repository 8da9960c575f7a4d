/**
 * The status snapshot: the queue length, a preview of the first five
 * ticket numbers, the average service time and the served count.
 */
module QueueStats {
  import opened Wrappers
  import opened Codec
  import opened TicketStore

  /** How many entries the status preview reads (ZRANGE queue 0 4). */
  const PreviewSize: nat := 5

  datatype Snapshot = Snapshot(
    currentServing: nat,
    queueLength: nat,
    nextInQueue: seq<nat>,
    averageWaitTime: real,
    totalServedToday: nat)

  /** The members of the store as Redis holds them: the JSON text of each record. */
  function Members(s: seq<Record>): (ms: seq<string>)
    ensures |ms| == |s|
    ensures forall i :: 0 <= i < |s| ==> ms[i] == Serialize(s[i])
  {
    if s == [] then [] else [Serialize(s[0])] + Members(s[1..])
  }

  /** The `number` of a member, or nothing when the member does not decode. */
  function NumberOf(m: string): Option<nat>
  {
    match Decode(m)
    case Some(r) => Some(r.number)
    case None => None
  }

  /** The numbers of the members that decode, in member order; the others are skipped. */
  function DecodedNumbers(ms: seq<string>): (ns: seq<nat>)
    ensures |ns| <= |ms|
  {
    if ms == [] then []
    else
      match NumberOf(ms[0])
      case Some(n) => [n] + DecodedNumbers(ms[1..])
      case None => DecodedNumbers(ms[1..])
  }

  /** The first (up to) five members in store order. */
  function Preview(ms: seq<string>): seq<string>
  {
    if |ms| <= PreviewSize then ms else ms[..PreviewSize]
  }

  /** The `nextInQueue` field: the decodable numbers among the first five members. */
  function NextInQueue(ms: seq<string>): (ns: seq<nat>)
    ensures |ns| <= PreviewSize && |ns| <= |ms|
  {
    DecodedNumbers(Preview(ms))
  }

  /** Scanning two runs of members one after the other gives the two results one after the other. */
  lemma {:induction false} DecodedNumbersAppend(a: seq<string>, b: seq<string>)
    ensures DecodedNumbers(a + b) == DecodedNumbers(a) + DecodedNumbers(b)
  {
    if a == [] {
      assert a + b == b;
    } else {
      var ab := a + b;
      assert ab[0] == a[0] && ab[1..] == a[1..] + b;
      DecodedNumbersAppend(a[1..], b);
      match NumberOf(a[0])
      case Some(n) =>
        assert DecodedNumbers(ab) == [n] + DecodedNumbers(a[1..] + b);
      case None =>
    }
  }

  /** A member that does not decode contributes nothing. */
  lemma UndecodableSkipped(m: string, rest: seq<string>)
    requires Decode(m) == None
    ensures DecodedNumbers([m] + rest) == DecodedNumbers(rest)
  {
    assert ([m] + rest)[1..] == rest;
  }

  /** For members the engine wrote, the scan recovers every ticket number, in store order. */
  lemma {:induction false} DecodedNumbersOfStore(s: seq<Record>)
    ensures DecodedNumbers(Members(s)) == Numbers(s)
  {
    if s != [] {
      DecodeSerialize(s[0]);
      assert Members(s)[1..] == Members(s[1..]);
      DecodedNumbersOfStore(s[1..]);
    }
  }

  /**
   * The preview of a store the engine wrote holds at most five numbers:
   * those of its first five entries, in store order.
   */
  lemma NextInQueueOfStore(s: seq<Record>)
    ensures NextInQueue(Members(s)) == FirstNumbers(s, PreviewSize)
    ensures |NextInQueue(Members(s))| <= PreviewSize
  {
    FirstNumbersOfPrefix(s, PreviewSize);
    if |s| <= PreviewSize {
      DecodedNumbersOfStore(s);
    } else {
      assert Preview(Members(s)) == Members(s[..PreviewSize]);
      DecodedNumbersOfStore(s[..PreviewSize]);
    }
  }

  /** A corrupted member among the first five is skipped; the rest keep their order. */
  lemma CorruptPreview(r1: Record, r2: Record)
    ensures NextInQueue(["not json", Serialize(r1), Serialize(r2)]) == [r1.number, r2.number]
  {
    var m := "not json";
    assert !StartsWith(m, NumberField);
    assert Decode(m) == None;
    var rest := Members([r1, r2]);
    assert rest == [Serialize(r1), Serialize(r2)];
    assert Preview([m] + rest) == [m] + rest;
    UndecodableSkipped(m, rest);
    DecodedNumbersOfStore([r1, r2]);
    assert Numbers([r1, r2]) == [r1.number, r2.number];
  }
}
