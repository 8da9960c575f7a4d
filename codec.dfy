/** Optional values, for decoding that may fail. */
module Wrappers {
  datatype Option<+T> = None | Some(value: T)
}

/**
 * The record the join handler stores in the sorted set, and its JSON text.
 * The handler writes `{"number":N,"timestamp":T,"estimatedWait":0}`; the
 * estimate is computed only after the record has been stored, so the stored
 * text always carries an estimate of 0.
 */
module Codec {
  import opened Wrappers

  /** A stored ticket: its number and its admission time in milliseconds. */
  datatype Record = Record(number: nat, timestamp: nat)

  const NumberField: string := "{\"number\":"
  const TimestampField: string := ",\"timestamp\":"
  const WaitField: string := ",\"estimatedWait\":0}"

  predicate IsDigit(c: char) { '0' <= c <= '9' }

  function DigitChar(d: nat): (c: char)
    requires d < 10
    ensures IsDigit(c)
  {
    (d + '0' as int) as char
  }

  function DigitValue(c: char): nat
    requires IsDigit(c)
  {
    (c as int) - ('0' as int)
  }

  /** Decimal text of `n`, as JSON.stringify writes an integer. */
  function Digits(n: nat): (s: string)
    ensures |s| >= 1
    ensures forall i :: 0 <= i < |s| ==> IsDigit(s[i])
    ensures |s| == 1 <==> n < 10
    ensures s[0] == '0' <==> n == 0
    decreases n
  {
    if n < 10 then [DigitChar(n)] else Digits(n / 10) + [DigitChar(n % 10)]
  }

  /** The value of a string of decimal digits. */
  function DigitsValue(s: string): nat
    requires forall i :: 0 <= i < |s| ==> IsDigit(s[i])
  {
    if s == [] then 0 else 10 * DigitsValue(s[..|s| - 1]) + DigitValue(s[|s| - 1])
  }

  /** The length of the run of digits that starts `s`. */
  function DigitRun(s: string): (k: nat)
    ensures k <= |s|
    ensures forall i :: 0 <= i < k ==> IsDigit(s[i])
    ensures k < |s| ==> !IsDigit(s[k])
  {
    if s == [] || !IsDigit(s[0]) then 0 else 1 + DigitRun(s[1..])
  }

  predicate StartsWith(s: string, p: string) {
    |p| <= |s| && s[..|p|] == p
  }

  /** The JSON text the join handler stores for `r`. */
  function Serialize(r: Record): string {
    NumberField + Digits(r.number) + TimestampField + Digits(r.timestamp) + WaitField
  }

  /** What follows the prefix `p` of `s`, if `s` starts with it. */
  function AfterPrefix(s: string, p: string): (r: Option<string>)
    ensures r.Some? ==> s == p + r.value
  {
    if StartsWith(s, p) then Some(s[|p|..]) else None
  }

  /**
   * The integer that starts `s` and the text after it. As in JSON, a number
   * of more than one digit may not start with a zero.
   */
  function ReadNumber(s: string): (r: Option<(nat, string)>)
    ensures r.Some? ==> |r.value.1| < |s|
  {
    var k := DigitRun(s);
    if k == 0 || (k > 1 && s[0] == '0') then None else Some((DigitsValue(s[..k]), s[k..]))
  }

  /**
   * Reads back a stored member: the record when the member has exactly the
   * layout above, None for any other text. Text that is not JSON is None,
   * as JSON.parse throws on it; other JSON layouts are None here too.
   */
  function Decode(s: string): Option<Record> {
    match AfterPrefix(s, NumberField)
    case None => None
    case Some(a) =>
      match ReadNumber(a)
      case None => None
      case Some((n, a')) =>
        match AfterPrefix(a', TimestampField)
        case None => None
        case Some(b) =>
          match ReadNumber(b)
          case None => None
          case Some((t, b')) =>
            if b' == WaitField then Some(Record(n, t)) else None
  }

  lemma {:induction false} DigitsRoundTrip(n: nat)
    ensures DigitsValue(Digits(n)) == n
    decreases n
  {
    if n >= 10 {
      DigitsRoundTrip(n / 10);
      var s := Digits(n);
      assert s[..|s| - 1] == Digits(n / 10);
    }
  }

  /** A digit run stops exactly where the digits end. */
  lemma {:induction false} DigitRunOfDigits(d: string, rest: string)
    requires forall i :: 0 <= i < |d| ==> IsDigit(d[i])
    requires rest == [] || !IsDigit(rest[0])
    ensures DigitRun(d + rest) == |d|
  {
    if d != [] {
      assert (d + rest)[1..] == d[1..] + rest;
      DigitRunOfDigits(d[1..], rest);
    }
  }

  lemma AfterPrefixConcat(p: string, x: string)
    ensures AfterPrefix(p + x, p) == Some(x)
  {
    assert (p + x)[..|p|] == p;
    assert (p + x)[|p|..] == x;
  }

  lemma ReadNumberDigits(n: nat, rest: string)
    requires rest == [] || !IsDigit(rest[0])
    ensures ReadNumber(Digits(n) + rest) == Some((n, rest))
  {
    var d := Digits(n);
    DigitRunOfDigits(d, rest);
    assert (d + rest)[..|d|] == d;
    assert (d + rest)[|d|..] == rest;
    DigitsRoundTrip(n);
  }

  /** The stored text, grouped from the right: each field followed by the rest. */
  lemma SerializeLayout(r: Record)
    ensures Serialize(r) == NumberField + (Digits(r.number) + (TimestampField + (Digits(r.timestamp) + WaitField)))
  {
  }

  /** Decoding the stored text gives back the record: the codec round trip. */
  lemma DecodeSerialize(r: Record)
    ensures Decode(Serialize(r)) == Some(r)
  {
    var dn, dt := Digits(r.number), Digits(r.timestamp);
    var b := dt + WaitField;
    var a := dn + (TimestampField + b);
    assert AfterPrefix(Serialize(r), NumberField) == Some(a) by {
      SerializeLayout(r);
      AfterPrefixConcat(NumberField, a);
    }
    assert ReadNumber(a) == Some((r.number, TimestampField + b)) by {
      ReadNumberDigits(r.number, TimestampField + b);
    }
    assert AfterPrefix(TimestampField + b, TimestampField) == Some(b) by {
      AfterPrefixConcat(TimestampField, b);
    }
    assert ReadNumber(b) == Some((r.timestamp, WaitField)) by {
      ReadNumberDigits(r.timestamp, WaitField);
    }
  }

  /** A run of digits that does not start with a zero has a positive value. */
  lemma {:induction false} DigitsValuePositive(d: string)
    requires forall i :: 0 <= i < |d| ==> IsDigit(d[i])
    requires |d| > 0 && d[0] != '0'
    ensures DigitsValue(d) > 0
  {
    if |d| > 1 {
      DigitsValuePositive(d[..|d| - 1]);
    }
  }

  /** A run of digits without a leading zero is the decimal text of its value. */
  lemma {:induction false} DigitsOfValue(d: string)
    requires forall i :: 0 <= i < |d| ==> IsDigit(d[i])
    requires |d| == 1 || (|d| > 1 && d[0] != '0')
    ensures Digits(DigitsValue(d)) == d
  {
    var n := DigitsValue(d);
    if |d| > 1 {
      var p := d[..|d| - 1];
      DigitsValuePositive(p);
      DigitsOfValue(p);
      assert n / 10 == DigitsValue(p) && n % 10 == DigitValue(d[|d| - 1]);
      assert d == p + [d[|d| - 1]];
    }
  }

  /** What ReadNumber accepts is the decimal text of the number it returns. */
  lemma ReadNumberExact(s: string)
    requires ReadNumber(s).Some?
    ensures s == Digits(ReadNumber(s).value.0) + ReadNumber(s).value.1
  {
    var k := DigitRun(s);
    DigitsOfValue(s[..k]);
    assert s == s[..k] + s[k..];
  }

  /** A member decodes only when it is exactly the stored text of the record it decodes to. */
  lemma SerializeDecode(s: string, r: Record)
    requires Decode(s) == Some(r)
    ensures s == Serialize(r)
  {
    var a := AfterPrefix(s, NumberField).value;
    var a' := ReadNumber(a).value.1;
    var b := AfterPrefix(a', TimestampField).value;
    assert ReadNumber(a).value.0 == r.number && ReadNumber(b) == Some((r.timestamp, WaitField));
    assert a == Digits(r.number) + a' by {
      ReadNumberExact(a);
    }
    assert b == Digits(r.timestamp) + WaitField by {
      ReadNumberExact(b);
    }
    SerializeLayout(r);
  }

  /**
   * Decoding is the exact inverse of the stored layout: a member decodes to
   * `r` if and only if it is the text stored for `r`.
   */
  lemma DecodeExact(s: string, r: Record)
    ensures Decode(s) == Some(r) <==> s == Serialize(r)
  {
    if Decode(s) == Some(r) {
      SerializeDecode(s, r);
    }
    if s == Serialize(r) {
      DecodeSerialize(r);
    }
  }

  /** Distinct records are stored as distinct members. */
  lemma SerializeInjective(x: Record, y: Record)
    requires Serialize(x) == Serialize(y)
    ensures x == y
  {
    DecodeSerialize(x);
    DecodeSerialize(y);
  }
}
