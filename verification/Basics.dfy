/** Shared helpers: the usual Option type, machine integers and decimal text. */
module Basics {
  datatype Option<+T> = None | Some(value: T)

  const TWO_TO_63: int := 0x8000_0000_0000_0000
  const TWO_TO_64: int := 0x1_0000_0000_0000_0000

  /** Some element of a non-empty set. */
  ghost function Pick<T>(s: set<T>): (x: T)
    requires s != {}
    ensures x in s
  {
    var x :| x in s;
    x
  }

  lemma MinusKeys<K, V>(m: map<K, V>, k: K)
    ensures (m - {k}).Keys == m.Keys - {k}
  {
  }

  type uint64 = x: int | 0 <= x < 0x1_0000_0000_0000_0000
}

/** Decimal text of natural numbers, as strconv and fmt's %d read and write it. */
module Decimals {
  predicate IsDigit(c: char) {
    '0' <= c <= '9'
  }

  predicate AllDigits(s: string) {
    forall i :: 0 <= i < |s| ==> IsDigit(s[i])
  }

  function DigitOf(c: char): (d: nat)
    requires IsDigit(c)
    ensures d < 10
  {
    c as int - '0' as int
  }

  /** The number a digit string denotes, most significant digit first. */
  function NumberOf(s: string): nat
    requires AllDigits(s)
  {
    if s == "" then 0 else 10 * NumberOf(s[..|s| - 1]) + DigitOf(s[|s| - 1])
  }

  function Decimal(n: nat): string {
    var last := [('0' as int + n % 10) as char];
    if n < 10 then last else Decimal(n / 10) + last
  }

  lemma {:induction false} DecimalRoundTrip(n: nat)
    ensures Decimal(n) != "" && AllDigits(Decimal(n)) && NumberOf(Decimal(n)) == n
  {
    var last := [('0' as int + n % 10) as char];
    if n < 10 {
      assert last[..0] == "";
    } else {
      DecimalRoundTrip(n / 10);
      var front := Decimal(n / 10);
      assert (front + last)[..|front + last| - 1] == front;
    }
  }

  function TenTo(n: nat): nat {
    if n == 0 then 1 else 10 * TenTo(n - 1)
  }

  /** The first of n + 1 digits counts ten to the n. */
  lemma {:induction false} FirstDigitCounts(c: char, s: string)
    requires IsDigit(c) && AllDigits(s)
    ensures NumberOf([c] + s) == (c as int - '0' as int) * TenTo(|s|) + NumberOf(s)
  {
    var all := [c] + s;
    assert AllDigits(all);
    if s == "" {
      assert all[..0] == "" && all == [c];
    } else {
      var n := |s| - 1;
      FirstDigitCounts(c, s[..n]);
      assert all[..n + 1] == [c] + s[..n] && all[n + 1] == s[n];
      var d, p := c as int - '0' as int, TenTo(n);
      assert 10 * (d * p) == d * (10 * p);
    }
  }
}
