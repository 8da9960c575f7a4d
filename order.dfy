/**
 * The order of the Redis sorted set that holds the queue: entries are ordered
 * by score (the admission timestamp) and, between equal scores, by the bytes
 * of the member text. Every member the engine writes is ASCII, so comparing
 * characters compares bytes.
 */
module KeyOrder {
  import opened Codec

  /** Byte-wise lexicographic order; a proper prefix comes first. */
  predicate LexLess(a: string, b: string)
  {
    |b| > 0 && (|a| == 0 || a[0] < b[0] || (a[0] == b[0] && LexLess(a[1..], b[1..])))
  }

  /** The sorted-set order of two stored records, as Redis applies it: score, then member text. */
  predicate SortedSetLess(x: Record, y: Record)
  {
    x.timestamp < y.timestamp
    || (x.timestamp == y.timestamp && LexLess(Serialize(x), Serialize(y)))
  }

  /**
   * The same order in closed form: admission time, then the decimal text
   * of the ticket number (KeyLessIsSortedSetLess below shows the two agree).
   */
  predicate KeyLess(x: Record, y: Record)
  {
    x.timestamp < y.timestamp
    || (x.timestamp == y.timestamp && LexLess(Digits(x.number), Digits(y.number)))
  }

  lemma {:induction false} LexIrreflexive(a: string)
    ensures !LexLess(a, a)
  {
    if |a| > 0 {
      LexIrreflexive(a[1..]);
    }
  }

  lemma {:induction false} LexTransitive(a: string, b: string, c: string)
    requires LexLess(a, b) && LexLess(b, c)
    ensures LexLess(a, c)
  {
    if |a| > 0 && a[0] == b[0] && b[0] == c[0] {
      LexTransitive(a[1..], b[1..], c[1..]);
    }
  }

  lemma {:induction false} LexTotal(a: string, b: string)
    requires a != b
    ensures LexLess(a, b) || LexLess(b, a)
  {
    if |a| > 0 && |b| > 0 && a[0] == b[0] {
      assert a == [a[0]] + a[1..] && b == [b[0]] + b[1..];
      LexTotal(a[1..], b[1..]);
    }
  }

  /** A common prefix does not change the order of two texts. */
  lemma {:induction false} LexCommonPrefix(p: string, a: string, b: string)
    ensures LexLess(p + a, p + b) <==> LexLess(a, b)
  {
    if p != [] {
      assert (p + a)[0] == p[0] == (p + b)[0];
      assert (p + a)[1..] == p[1..] + a;
      assert (p + b)[1..] == p[1..] + b;
      LexCommonPrefix(p[1..], a, b);
    } else {
      assert p + a == a && p + b == b;
    }
  }

  /**
   * Two runs of digits followed by the same text that starts below '0' (the
   * comma after the number in a member) compare as the digit runs do.
   */
  lemma {:induction false} LexDigitsThenSeparator(a: string, b: string, t: string)
    requires forall i :: 0 <= i < |a| ==> IsDigit(a[i])
    requires forall i :: 0 <= i < |b| ==> IsDigit(b[i])
    requires |t| > 0 && t[0] < '0'
    ensures LexLess(a + t, b + t) <==> LexLess(a, b)
  {
    if a == [] && b == [] {
      assert a + t == t && b + t == t;
      LexIrreflexive(t);
    } else if a == [] {
      assert (a + t)[0] == t[0] && (b + t)[0] == b[0];
    } else if b == [] {
      assert (a + t)[0] == a[0] && (b + t)[0] == t[0];
    } else {
      assert (a + t)[0] == a[0] && (b + t)[0] == b[0];
      assert (a + t)[1..] == a[1..] + t;
      assert (b + t)[1..] == b[1..] + t;
      LexDigitsThenSeparator(a[1..], b[1..], t);
    }
  }

  /** Two texts of equal length differing first in their last character. */
  lemma {:induction false} LexAppendLast(a: string, b: string, c: char, d: char)
    requires |a| == |b|
    ensures LexLess(a + [c], b + [d]) <==> LexLess(a, b) || (a == b && c < d)
  {
    if a == [] {
      assert a + [c] == [c] && b + [d] == [d];
    } else {
      assert (a + [c])[1..] == a[1..] + [c];
      assert (b + [d])[1..] == b[1..] + [d];
      LexAppendLast(a[1..], b[1..], c, d);
      if a[0] == b[0] && a[1..] == b[1..] {
        assert a == [a[0]] + a[1..] && b == [b[0]] + b[1..];
      }
    }
  }

  /** The text after the ticket number in a stored member. */
  function AfterNumber(r: Record): string {
    TimestampField + Digits(r.timestamp) + WaitField
  }

  /** Members of equal score are ordered by what follows the shared `{"number":` prefix. */
  lemma SerializedOrder(x: Record, y: Record)
    ensures LexLess(Serialize(x), Serialize(y)) <==> LexLess(Digits(x.number) + AfterNumber(x), Digits(y.number) + AfterNumber(y))
  {
    assert Serialize(x) == NumberField + (Digits(x.number) + AfterNumber(x));
    assert Serialize(y) == NumberField + (Digits(y.number) + AfterNumber(y));
    LexCommonPrefix(NumberField, Digits(x.number) + AfterNumber(x), Digits(y.number) + AfterNumber(y));
  }

  /**
   * The closed form is the sorted-set order: between members of equal score
   * everything but the number is shared, and the comma that ends the number
   * sorts below every digit, so a shorter number's text comes first when it
   * is a prefix of the other's.
   */
  lemma KeyLessIsSortedSetLess(x: Record, y: Record)
    ensures KeyLess(x, y) <==> SortedSetLess(x, y)
  {
    if x.timestamp == y.timestamp {
      SerializedOrder(x, y);
      assert AfterNumber(x)[0] == ',';
      LexDigitsThenSeparator(Digits(x.number), Digits(y.number), AfterNumber(x));
    }
  }

  lemma KeyIrreflexive(x: Record)
    ensures !KeyLess(x, x)
  {
    LexIrreflexive(Digits(x.number));
  }

  lemma KeyTransitive(x: Record, y: Record, z: Record)
    requires KeyLess(x, y) && KeyLess(y, z)
    ensures KeyLess(x, z)
  {
    if x.timestamp == y.timestamp == z.timestamp {
      LexTransitive(Digits(x.number), Digits(y.number), Digits(z.number));
    }
  }

  /** Any two different records are ordered one way or the other. */
  lemma KeyTotal(x: Record, y: Record)
    requires x != y
    ensures KeyLess(x, y) || KeyLess(y, x)
  {
    if x.timestamp == y.timestamp {
      if Digits(x.number) == Digits(y.number) {
        DigitsRoundTrip(x.number);
        DigitsRoundTrip(y.number);
      }
      LexTotal(Digits(x.number), Digits(y.number));
    }
  }

  lemma KeyAsymmetric(x: Record, y: Record)
    requires KeyLess(x, y)
    ensures !KeyLess(y, x)
  {
    if KeyLess(y, x) {
      KeyTransitive(x, y, x);
      KeyIrreflexive(x);
    }
  }

  /** Between equal-length decimal texts, the text order is the numeric order. */
  lemma {:induction false} DigitsOrder(m: nat, n: nat)
    requires |Digits(m)| == |Digits(n)|
    ensures LexLess(Digits(m), Digits(n)) <==> m < n
    decreases m
  {
    if m < 10 {
      assert n < 10;
    } else {
      assert n >= 10;
      DigitsOrder(m / 10, n / 10);
      LexAppendLast(Digits(m / 10), Digits(n / 10), DigitChar(m % 10), DigitChar(n % 10));
      if Digits(m / 10) == Digits(n / 10) {
        DigitsRoundTrip(m / 10);
        DigitsRoundTrip(n / 10);
      }
    }
  }

  /**
   * Tickets admitted in the same millisecond whose numbers have the same
   * number of digits leave the queue in ticket-number order.
   */
  lemma SameWidthTiesByNumber(x: Record, y: Record)
    requires x.timestamp == y.timestamp
    requires |Digits(x.number)| == |Digits(y.number)|
    ensures SortedSetLess(x, y) <==> x.number < y.number
  {
    KeyLessIsSortedSetLess(x, y);
    DigitsOrder(x.number, y.number);
  }

  /**
   * Ties between numbers of different widths follow the text: ticket 10
   * is ordered before ticket 9 when both were admitted in the same
   * millisecond, because "1" sorts before "9".
   */
  lemma TenBeforeNineOnTie(t: nat)
    ensures SortedSetLess(Record(10, t), Record(9, t))
    ensures !SortedSetLess(Record(9, t), Record(10, t))
  {
    var x, y := Record(10, t), Record(9, t);
    assert Digits(10) == ['1', '0'];
    assert Digits(9) == ['9'];
    KeyLessIsSortedSetLess(x, y);
    KeyLessIsSortedSetLess(y, x);
    KeyAsymmetric(x, y);
  }
}
