/**
 * The Redis sorted set "queue", seen as the sequence of its records in
 * ascending key order (ZRANGE 0 -1). ZADD inserts a member at its place,
 * ZPOPMIN removes the first one, ZCARD is the length.
 */
module TicketStore {
  import opened Codec
  import opened KeyOrder

  /** Each entry sorts strictly before the next one. */
  ghost predicate Sorted(s: seq<Record>)
  {
    |s| < 2 || (KeyLess(s[0], s[1]) && Sorted(s[1..]))
  }

  /** In a sorted store the first entry sorts before every later one. */
  lemma {:induction false} SortedHeadLess(s: seq<Record>, x: Record)
    requires Sorted(s) && |s| > 0 && x in s[1..]
    ensures KeyLess(s[0], x)
  {
    if x != s[1] {
      assert x in s[1..][1..];
      SortedHeadLess(s[1..], x);
      KeyTransitive(s[0], s[1], x);
    }
  }

  /** A sorted store is ordered pairwise: every entry sorts before every later one. */
  lemma {:induction false} SortedPairwise(s: seq<Record>, i: nat, j: nat)
    requires Sorted(s) && i < j < |s|
    ensures KeyLess(s[i], s[j])
  {
    if i == 0 {
      assert s[j] == s[1..][j - 1];
      SortedHeadLess(s, s[j]);
    } else {
      SortedPairwise(s[1..], i - 1, j - 1);
    }
  }

  /** The number of entries that sort before `r`. */
  function CountBefore(s: seq<Record>, r: Record): (n: nat)
    ensures n <= |s|
  {
    if s == [] then 0 else (if KeyLess(s[0], r) then 1 else 0) + CountBefore(s[1..], r)
  }

  /**
   * ZADD with the record's own timestamp as score. A member already present
   * carries that same timestamp, so adding it again leaves the set as it is.
   */
  function Insert(s: seq<Record>, r: Record): (t: seq<Record>)
    ensures r in t
    ensures forall x :: x in t <==> x == r || x in s
  {
    if s == [] then [r]
    else if r == s[0] then s
    else if KeyLess(r, s[0]) then [r] + s
    else [s[0]] + Insert(s[1..], r)
  }

  /** The ticket numbers of the entries, in store order. */
  function Numbers(s: seq<Record>): (ns: seq<nat>)
    ensures |ns| == |s|
  {
    if s == [] then [] else [s[0].number] + Numbers(s[1..])
  }

  lemma {:induction false} NumbersAt(s: seq<Record>, i: nat)
    requires i < |s|
    ensures Numbers(s)[i] == s[i].number
  {
    if i > 0 {
      NumbersAt(s[1..], i - 1);
    }
  }

  /** A record in the store contributes its number. */
  lemma NumberOfMember(s: seq<Record>, r: Record)
    requires r in s
    ensures r.number in Numbers(s)
  {
    var i :| 0 <= i < |s| && s[i] == r;
    NumbersAt(s, i);
  }

  /** The ticket numbers of the first `k` entries, in store order (ZRANGE 0 k-1). */
  function FirstNumbers(s: seq<Record>, k: nat): (ns: seq<nat>)
    ensures |ns| == if |s| <= k then |s| else k
  {
    if k == 0 || s == [] then [] else [s[0].number] + FirstNumbers(s[1..], k - 1)
  }

  lemma {:induction false} FirstNumbersAt(s: seq<Record>, k: nat, i: nat)
    requires i < |s| && i < k
    ensures FirstNumbers(s, k)[i] == s[i].number
  {
    if i > 0 {
      FirstNumbersAt(s[1..], k - 1, i - 1);
    }
  }

  /** The numbers of the first `k` entries are the numbers of the store cut after `k` entries. */
  lemma {:induction false} FirstNumbersOfPrefix(s: seq<Record>, k: nat)
    ensures FirstNumbers(s, k) == Numbers(if |s| <= k then s else s[..k])
  {
    var p := if |s| <= k then s else s[..k];
    if k == 0 || s == [] {
      assert p == [];
    } else {
      FirstNumbersOfPrefix(s[1..], k - 1);
      var q := if |s[1..]| <= k - 1 then s[1..] else s[1..][..k - 1];
      assert p[0] == s[0] && p[1..] == q;
    }
  }

  /** Adding a record whose number is new adds that number once to the store's numbers. */
  lemma {:induction false} InsertNumbers(s: seq<Record>, r: Record)
    requires r !in s
    ensures multiset(Numbers(Insert(s, r))) == multiset(Numbers(s)) + multiset{r.number}
  {
    if s == [] {
    } else if KeyLess(r, s[0]) {
      assert ([r] + s)[1..] == s;
    } else {
      assert r != s[0];
      InsertNumbers(s[1..], r);
      assert ([s[0]] + Insert(s[1..], r))[1..] == Insert(s[1..], r);
    }
  }

  /** Nothing in a sorted store sorts before a record that sorts before its first entry. */
  lemma {:induction false} CountBeforeFront(s: seq<Record>, r: Record)
    requires Sorted(s) && |s| > 0 && KeyLess(r, s[0])
    ensures CountBefore(s, r) == 0
  {
    KeyAsymmetric(r, s[0]);
    if |s| > 1 {
      KeyTransitive(r, s[0], s[1]);
      CountBeforeFront(s[1..], r);
    }
  }

  /** Inserting a record that is not there adds exactly that record. */
  lemma {:induction false} InsertAdds(s: seq<Record>, r: Record)
    requires r !in s
    ensures |Insert(s, r)| == |s| + 1
    ensures multiset(Insert(s, r)) == multiset(s) + multiset{r}
  {
    if s != [] && !KeyLess(r, s[0]) {
      assert r != s[0];
      InsertAdds(s[1..], r);
      assert s == [s[0]] + s[1..];
    }
  }

  /** Inserting a new record into a sorted store keeps it sorted. */
  lemma {:induction false} InsertSorted(s: seq<Record>, r: Record)
    requires Sorted(s) && r !in s
    ensures Sorted(Insert(s, r))
  {
    if s == [] {
    } else if KeyLess(r, s[0]) {
      assert ([r] + s)[1..] == s;
    } else {
      KeyTotal(r, s[0]);
      var t := Insert(s[1..], r);
      InsertSorted(s[1..], r);
      if |s| == 1 {
        assert t == [r];
      } else if KeyLess(r, s[1]) {
        assert t[0] == r;
      } else {
        assert r != s[1];
        assert t[0] == s[1];
      }
      assert ([s[0]] + t)[1..] == t;
    }
  }

  /** In a sorted store the new record lands right after the entries that sort before it. */
  lemma {:induction false} InsertPosition(s: seq<Record>, r: Record)
    requires Sorted(s) && r !in s
    ensures CountBefore(s, r) < |Insert(s, r)|
    ensures Insert(s, r)[CountBefore(s, r)] == r
  {
    if s == [] {
    } else if KeyLess(r, s[0]) {
      CountBeforeFront(s, r);
    } else {
      KeyTotal(r, s[0]);
      KeyAsymmetric(s[0], r);
      InsertPosition(s[1..], r);
      var t := Insert(s[1..], r);
      assert ([s[0]] + t)[1 + CountBefore(s[1..], r)] == t[CountBefore(s[1..], r)];
    }
  }

  /**
   * Inserting a new record into a sorted store keeps it sorted, adds exactly
   * that record, and puts it after exactly the entries that sort before it.
   */
  lemma InsertNew(s: seq<Record>, r: Record)
    requires Sorted(s) && r !in s
    ensures |Insert(s, r)| == |s| + 1
    ensures Sorted(Insert(s, r))
    ensures multiset(Insert(s, r)) == multiset(s) + multiset{r}
    ensures Insert(s, r)[CountBefore(s, r)] == r
  {
    InsertAdds(s, r);
    InsertSorted(s, r);
    InsertPosition(s, r);
  }

  /** Re-adding a member that is already there changes nothing. */
  lemma {:induction false} InsertExisting(s: seq<Record>, r: Record)
    requires Sorted(s) && r in s
    ensures Insert(s, r) == s
  {
    if r != s[0] {
      assert r in s[1..];
      SortedHeadLess(s, r);
      KeyAsymmetric(s[0], r);
      InsertExisting(s[1..], r);
      assert s == [s[0]] + s[1..];
    }
  }

  /**
   * A record admitted strictly later than every entry goes to the back: its
   * 1-based position is the new length of the queue.
   */
  lemma {:induction false} InsertLatest(s: seq<Record>, r: Record)
    requires forall x :: x in s ==> x.timestamp < r.timestamp
    ensures CountBefore(s, r) == |s|
    ensures Insert(s, r) == s + [r]
  {
    if s != [] {
      assert s[0] in s;
      InsertLatest(s[1..], r);
      assert s == [s[0]] + s[1..];
    }
  }

  /** Removing the first entry of a sorted store removes its key-minimum. */
  lemma PopMinIsMinimum(s: seq<Record>)
    requires Sorted(s) && |s| > 0
    ensures Sorted(s[1..])
    ensures forall x :: x in s[1..] ==> KeyLess(s[0], x) && x != s[0]
  {
    forall x | x in s[1..] ensures KeyLess(s[0], x) && x != s[0] {
      SortedHeadLess(s, x);
      KeyIrreflexive(x);
    }
  }
}
