/** Bundle versions (pkg/bundle/version/version.go): comparison, text form and the shared mutable cell. */
module Versions {
  import opened Basics
  import opened Decimals

  /** The value of a version: how often the bundle was sent, and how often it was updated. */
  datatype Stamp = Stamp(generation: uint64, value: uint64) {
    /** Position of the version in the lexicographic order. */
    ghost function Rank(): int {
      generation * TWO_TO_64 + value
    }

    /** NewerThan compares exactly by rank, so it is a strict total order. */
    predicate NewerThan(other: Stamp)
      ensures NewerThan(other) <==> Rank() > other.Rank()
      ensures Rank() == other.Rank() <==> this == other
    {
      if this == other then false
      else if generation > other.generation then true
      else if generation < other.generation then false
      else value > other.value
    }

    predicate EqualValue(other: Stamp) {
      value == other.value
    }

    predicate NewerValueThan(other: Stamp) {
      value > other.value
    }

    predicate InitGen() {
      generation == 0
    }

    function Incr(): Stamp {
      Stamp(generation, (value + 1) % TWO_TO_64)
    }

    function Next(): Stamp {
      Stamp((generation + 1) % TWO_TO_64, value)
    }

    function ToText(): string {
      Decimal(generation) + "." + Decimal(value)
    }
  }

  const ZERO := Stamp(0, 0)

  // ---------------------------------------------------------------- text form

  /** strings.Split with a one-character separator. */
  function Split(s: string, sep: char): (parts: seq<string>)
    ensures |parts| > 0
  {
    if s == "" then [""]
    else
      var rest := Split(s[1..], sep);
      if s[0] == sep then [""] + rest else [[s[0]] + rest[0]] + rest[1..]
  }

  /** strconv.ParseUint(s, 10, 64). */
  function ParseUint(s: string): Option<uint64> {
    if s == "" || !AllDigits(s) || NumberOf(s) >= TWO_TO_64 then None else Some(NumberOf(s))
  }

  function VersionFrom(s: string): Option<Stamp> {
    var vals := Split(s, '.');
    if |vals| != 2 then None
    else
      match (ParseUint(vals[0]), ParseUint(vals[1]))
      case (Some(g), Some(v)) => Some(Stamp(g, v))
      case _ => None
  }

  /** Splitting loses nothing: the parts have no separator and join back to the text. */
  function Join(parts: seq<string>, sep: char): string
    requires |parts| > 0
  {
    if |parts| == 1 then parts[0] else parts[0] + [sep] + Join(parts[1..], sep)
  }

  lemma {:induction false} SplitJoin(s: string, sep: char)
    ensures Join(Split(s, sep), sep) == s
    ensures forall i :: 0 <= i < |Split(s, sep)| ==> sep !in Split(s, sep)[i]
  {
    if s != "" {
      SplitJoin(s[1..], sep);
      var rest := Split(s[1..], sep);
      if s[0] == sep {
        assert ([""] + rest)[1..] == rest;
      } else if |rest| > 1 {
        var head := [s[0]] + rest[0];
        assert ([head] + rest[1..])[1..] == rest[1..];
        assert head + [sep] + Join(rest[1..], sep) == [s[0]] + (rest[0] + [sep] + Join(rest[1..], sep));
      }
    }
  }

  lemma {:induction false} SplitNone(a: string, sep: char)
    requires sep !in a
    ensures Split(a, sep) == [a]
  {
    if a != "" {
      assert a[0] in a;
      SplitNone(a[1..], sep);
      assert [a[0]] + a[1..] == a;
    }
  }

  lemma {:induction false} SplitAtFirst(a: string, b: string, sep: char)
    requires sep !in a
    ensures Split(a + [sep] + b, sep) == [a] + Split(b, sep)
  {
    var s := a + [sep] + b;
    if a == "" {
      assert s[1..] == b;
    } else {
      assert a[0] in a;
      SplitAtFirst(a[1..], b, sep);
      assert s[1..] == a[1..] + [sep] + b;
      assert [a[0]] + a[1..] == a;
    }
  }

  /** VersionFrom(v.String()) gives v back, for every pair of 64-bit counters. */
  lemma VersionTextRoundTrip(v: Stamp)
    ensures VersionFrom(v.ToText()) == Some(v)
  {
    DecimalRoundTrip(v.generation);
    DecimalRoundTrip(v.value);
    var g, x := Decimal(v.generation), Decimal(v.value);
    assert '.' !in g && '.' !in x;
    SplitAtFirst(g, x, '.');
    SplitNone(x, '.');
  }

  /** What VersionFrom accepts: two in-range digit runs around a single dot, and nothing else. */
  lemma VersionFromAccepts(s: string, v: Stamp)
    ensures VersionFrom(s) == Some(v) <==>
            exists g: string, x: string :: s == g + "." + x && ParseUint(g) == Some(v.generation)
              && ParseUint(x) == Some(v.value)
  {
    if VersionFrom(s) == Some(v) {
      SplitJoin(s, '.');
      var vals := Split(s, '.');
      assert s == vals[0] + "." + vals[1];
    }
    if g: string, x: string :| s == g + "." + x && ParseUint(g) == Some(v.generation) && ParseUint(x) == Some(v.value) {
      assert '.' !in g && '.' !in x;
      SplitAtFirst(g, x, '.');
      SplitNone(x, '.');
    }
  }

  // ---------------------------------------------------------------- the shared cell

  /** A *Version: emitters, metadata and elements hold pointers to it and change it in place. */
  class Version {
    var generation: uint64
    var value: uint64

    function Get(): Stamp
      reads this
    {
      Stamp(generation, value)
    }

    constructor (v: Stamp)
      ensures Get() == v
    {
      generation, value := v.generation, v.value;
    }

    predicate NewerThan(other: Version?)
      reads this, other
    {
      other == null || Get().NewerThan(other.Get())
    }

    predicate InitGen()
      reads this
    {
      generation == 0
    }

    method Incr()
      modifies this
      ensures Get() == old(Get()).Incr()
      ensures generation == old(generation) && value == if old(value) == TWO_TO_64 - 1 then 0 else old(value) + 1
    {
      value := (value + 1) % TWO_TO_64;
    }

    method Next()
      modifies this
      ensures Get() == old(Get()).Next()
      ensures value == old(value) && generation == if old(generation) == TWO_TO_64 - 1 then 0 else old(generation) + 1
    {
      generation := (generation + 1) % TWO_TO_64;
    }

    method Reset()
      modifies this
      ensures Get() == ZERO == Stamp(0, 0)
    {
      generation, value := 0, 0;
    }
  }
}
