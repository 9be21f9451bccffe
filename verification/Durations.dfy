/** Durations in months and years (pkg/utils/time.go), on inputs without a decimal point. */
module Durations {
  import opened Basics
  import opened Decimals

  const HOUR: int := 3_600_000_000_000
  const MONTH: int := HOUR * 24 * 30
  const YEAR: int := HOUR * 24 * 365

  function UnitOf(u: string): Option<nat> {
    if u == "m" then Some(MONTH) else if u == "y" then Some(YEAR) else None
  }

  datatype DurationError = InvalidDuration | MissingUnit | UnknownUnit

  datatype Result = Ok(nanoseconds: int) | Err(error: DurationError)

  // ---------------------------------------------------------------- the grammar: ([0-9]+ unit)+

  /** The longest prefix of digits, or of anything else. */
  function Leading(s: string, digits: bool): (p: string)
    ensures |p| <= |s| && (digits ==> AllDigits(p))
  {
    if s == "" || IsDigit(s[0]) != digits then "" else [s[0]] + Leading(s[1..], digits)
  }

  lemma {:induction false} LeadingIsPrefix(s: string, digits: bool)
    ensures var p := Leading(s, digits);
            && p == s[..|p|]
            && (forall i :: 0 <= i < |p| ==> IsDigit(s[i]) == digits)
            && (|p| < |s| ==> IsDigit(s[|p|]) != digits)
  {
    if s != "" && IsDigit(s[0]) == digits {
      LeadingIsPrefix(s[1..], digits);
      var p := Leading(s[1..], digits);
      assert s[..|p| + 1] == [s[0]] + s[1..][..|p|];
    }
  }

  lemma {:induction false} LeadingIs(s: string, digits: bool, n: nat)
    requires n <= |s| && (forall i :: 0 <= i < n ==> IsDigit(s[i]) == digits) && (n < |s| ==> IsDigit(s[n]) != digits)
    ensures Leading(s, digits) == s[..n]
  {
    if n > 0 {
      LeadingIs(s[1..], digits, n - 1);
      assert s[..n] == [s[0]] + s[1..][..n - 1];
    }
  }

  /** v * unit, written so that the solver multiplies only where TimesIs is called. */
  function Times(v: nat, unit: nat): nat {
    if v == 0 then 0 else unit + Times(v - 1, unit)
  }

  lemma {:induction false} TimesIs(v: nat, unit: nat)
    ensures Times(v, unit) == v * unit
  {
    if v > 0 {
      TimesIs(v - 1, unit);
    }
  }

  function Worth(number: string, unit: string): nat
    requires AllDigits(number) && UnitOf(unit).Some?
  {
    Times(NumberOf(number), UnitOf(unit).value)
  }

  /** What the first number with its unit is worth, and the text after it. */
  function FirstTerm(s: string): (r: Option<(nat, string)>)
    ensures r.Some? ==> |r.value.1| < |s|
  {
    var number := Leading(s, true);
    var unit := Leading(s[|number|..], false);
    if number == "" || UnitOf(unit).None? then None else Some((Worth(number, unit), s[|number| + |unit|..]))
  }

  /** The exact sum a text denotes, without any bound; None when it is not a list of numbers with units. */
  function Sum(s: string): Option<nat>
    decreases |s|
  {
    if s == "" then Some(0)
    else
      match FirstTerm(s)
      case None => None
      case Some((worth, rest)) =>
        match Sum(rest)
        case None => None
        case Some(n) => Some(worth + n)
  }

  /** One sign, then "0" alone or at least one number with its unit. */
  function Unsigned(s: string): string {
    if s != "" && (s[0] == '-' || s[0] == '+') then s[1..] else s
  }

  function Magnitude(t: string): Option<nat> {
    if t == "0" then Some(0) else if t == "" then None else Sum(t)
  }

  function WithSign(negative: bool, magnitude: Option<nat>): Option<int> {
    match magnitude
    case None => None
    case Some(n) => Some(if negative then 0 - n else n)
  }

  function Denotes(s: string): Option<int> {
    WithSign(s != "" && s[0] == '-', Magnitude(Unsigned(s)))
  }

  // ---------------------------------------------------------------- the grammar again, as what can be written

  datatype Term = Term(number: string, unit: string)

  ghost predicate TermOk(t: Term) {
    t.number != "" && AllDigits(t.number) && (t.unit == "m" || t.unit == "y")
  }

  ghost function Render(terms: seq<Term>): string {
    if terms == [] then "" else terms[0].number + terms[0].unit + Render(terms[1..])
  }

  ghost predicate TermsOk(terms: seq<Term>) {
    forall i :: 0 <= i < |terms| ==> TermOk(terms[i])
  }

  ghost function Total(terms: seq<Term>): nat
    requires TermsOk(terms)
  {
    if terms == [] then 0
    else
      assert TermOk(terms[0]);
      Worth(terms[0].number, terms[0].unit) + Total(terms[1..])
  }

  /** The first term of a text that begins with one, and goes on with a digit or not at all. */
  lemma {:induction false} FirstOf(t: Term, rest: string)
    requires TermOk(t) && (rest != "" ==> IsDigit(rest[0]))
    ensures FirstTerm(t.number + t.unit + rest) == Some((Worth(t.number, t.unit), rest))
  {
    var s, n := t.number + t.unit + rest, |t.number|;
    assert |t.unit| == 1 && !IsDigit(t.unit[0]) && s[n] == t.unit[0];
    LeadingIs(s, true, n);
    assert s[..n] == t.number && s[n..] == t.unit + rest;
    LeadingIs(s[n..], false, 1);
    assert s[n..][..1] == t.unit && s[n + 1..] == rest;
  }

  lemma {:induction false} SumUnfold(s: string, worth: nat, rest: string, n: nat)
    requires s != "" && FirstTerm(s) == Some((worth, rest)) && Sum(rest) == Some(n)
    ensures Sum(s) == Some(worth + n)
  {
  }

  lemma RenderStarts(terms: seq<Term>)
    requires TermsOk(terms) && terms != []
    ensures Render(terms) != "" && IsDigit(Render(terms)[0])
  {
    assert TermOk(terms[0]);
  }

  /** Every list of numbers with units denotes its total, whatever the unit order and the leading zeros. */
  lemma {:induction false} SumOfTerms(terms: seq<Term>)
    requires TermsOk(terms)
    ensures Sum(Render(terms)) == Some(Total(terms))
  {
    if terms != [] {
      var t, others := terms[0], terms[1..];
      assert TermOk(t);
      SumOfTerms(others);
      RenderStarts(terms);
      if others != [] {
        RenderStarts(others);
      }
      FirstOf(t, Render(others));
      SumUnfold(Render(terms), Worth(t.number, t.unit), Render(others), Total(others));
    }
  }

  lemma FirstIsTerm(s: string) returns (t: Term)
    requires FirstTerm(s).Some?
    ensures TermOk(t) && s == t.number + t.unit + FirstTerm(s).value.1
    ensures FirstTerm(s).value.0 == Worth(t.number, t.unit)
  {
    t := Term(Leading(s, true), Leading(s[|Leading(s, true)|..], false));
    LeadingIsPrefix(s, true);
    LeadingIsPrefix(s[|t.number|..], false);
    assert s[|t.number|..][|t.unit|..] == s[|t.number| + |t.unit|..];
  }

  lemma {:induction false} PutFirst(t: Term, terms: seq<Term>)
    requires TermOk(t) && TermsOk(terms)
    ensures TermsOk([t] + terms)
    ensures Render([t] + terms) == t.number + t.unit + Render(terms)
    ensures Total([t] + terms) == Worth(t.number, t.unit) + Total(terms)
  {
    assert ([t] + terms)[1..] == terms;
  }

  /** And nothing else denotes anything. */
  lemma {:induction false} TermsOfSum(s: string) returns (terms: seq<Term>)
    requires Sum(s).Some?
    ensures TermsOk(terms) && Render(terms) == s && Total(terms) == Sum(s).value
    decreases |s|
  {
    if s == "" {
      terms := [];
    } else {
      var t := FirstIsTerm(s);
      var rest := TermsOfSum(FirstTerm(s).value.1);
      PutFirst(t, rest);
      terms := [t] + rest;
    }
  }

  /** The sum of the numbers that stand before a unit. */
  ghost function Count(terms: seq<Term>, unit: string): nat
    requires TermsOk(terms)
  {
    if terms == [] then 0
    else
      assert TermOk(terms[0]);
      (if terms[0].unit == unit then NumberOf(terms[0].number) else 0) + Count(terms[1..], unit)
  }

  /** A month is 30 days and a year 365, of 24 hours of 3,600,000,000,000 nanoseconds. */
  lemma {:induction false} TotalMeans(terms: seq<Term>)
    requires TermsOk(terms)
    ensures Total(terms) == Count(terms, "m") * 2_592_000_000_000_000 + Count(terms, "y") * 31_536_000_000_000_000
  {
    if terms != [] {
      assert TermOk(terms[0]);
      TotalMeans(terms[1..]);
      TimesIs(NumberOf(terms[0].number), UnitOf(terms[0].unit).value);
    }
  }

  ghost predicate DenotesSigned(s: string, n: nat) {
    Denotes(s) == Some(n) && Denotes("+" + s) == Some(n) && Denotes("-" + s) == Some(0 - n)
  }

  lemma {:induction false} SignGoes(s: string)
    requires s != "" && IsDigit(s[0])
    ensures Unsigned(s) == Unsigned("+" + s) == Unsigned("-" + s) == s
  {
  }

  lemma {:induction false} Signed(s: string, n: nat)
    requires s != "" && IsDigit(s[0]) && Magnitude(s) == Some(n)
    ensures DenotesSigned(s, n)
  {
    SignGoes(s);
  }

  lemma {:induction false} RenderIsLong(terms: seq<Term>)
    requires TermsOk(terms) && terms != []
    ensures |Render(terms)| >= 2
  {
    assert TermOk(terms[0]);
  }

  lemma {:induction false} SumIsMagnitude(s: string, n: nat)
    requires |s| >= 2 && Sum(s) == Some(n)
    ensures Magnitude(s) == Some(n)
  {
  }

  /** A sum, signed or not, denotes its total with that sign. */
  lemma {:induction false} SignedSum(terms: seq<Term>)
    requires TermsOk(terms) && terms != []
    ensures DenotesSigned(Render(terms), Total(terms))
  {
    SumOfTerms(terms);
    RenderStarts(terms);
    RenderIsLong(terms);
    SumIsMagnitude(Render(terms), Total(terms));
    Signed(Render(terms), Total(terms));
  }

  /** A zero needs no unit. */
  lemma {:induction false} ZeroIsZero()
    ensures DenotesSigned("0", 0)
  {
    Signed("0", 0);
  }

  /** Whatever else denotes something is a zero without a unit. */
  lemma {:induction false} OnlySignedSums(s: string) returns (sign: string, terms: seq<Term>)
    requires Denotes(s).Some?
    ensures sign in {"", "-", "+"}
    ensures s == sign + "0" || (terms != [] && TermsOk(terms) && s == sign + Render(terms))
  {
    terms := [];
    sign := "";
    if s[0] == '-' {
      sign := "-";
    } else if s[0] == '+' {
      sign := "+";
    }
    assert s == sign + Unsigned(s);
    if Unsigned(s) != "0" {
      terms := TermsOfSum(Unsigned(s));
    }
  }

  // ---------------------------------------------------------------- arithmetic facts

  /** Units are multiples of three and 2^63 is not, so no number of them is 2^63. */
  lemma WorthIsMultiple(number: string, unit: string)
    requires AllDigits(number) && UnitOf(unit).Some?
    ensures Worth(number, unit) % 3 == 0 && Worth(number, unit) != TWO_TO_63
    ensures NumberOf(number) > TWO_TO_63 / UnitOf(unit).value <==> Worth(number, unit) > TWO_TO_63
  {
    var v := NumberOf(number);
    if unit == "m" {
      TimesIs(v, MONTH);
      MultipleOfThree(v, MONTH, 864_000_000_000_000);
    } else {
      TimesIs(v, YEAR);
      MultipleOfThree(v, YEAR, 10_512_000_000_000_000);
    }
  }

  lemma MultipleOfThree(v: nat, unit: nat, third: nat)
    requires unit == 3 * third && third > 0
    ensures v * unit % 3 == 0
    ensures v > TWO_TO_63 / unit <==> v * unit > TWO_TO_63
  {
    assert v * unit == 3 * (v * third);
    assert TWO_TO_63 == unit * (TWO_TO_63 / unit) + TWO_TO_63 % unit;
    var q := TWO_TO_63 / unit;
    if v > q {
      assert v * unit >= (q + 1) * unit;
    } else {
      assert v * unit <= q * unit;
    }
  }

  lemma FirstIsMultiple(s: string)
    ensures FirstTerm(s).Some? ==> FirstTerm(s).value.0 % 3 == 0
  {
    if FirstTerm(s).Some? {
      var number := Leading(s, true);
      WorthIsMultiple(number, Leading(s[|number|..], false));
    }
  }

  lemma {:induction false} NumbersGrow(s: string, i: nat)
    requires AllDigits(s) && i <= |s|
    ensures NumberOf(s[..i]) <= NumberOf(s)
  {
    if i == |s| {
      assert s[..i] == s;
    } else {
      NumbersGrow(s[..|s| - 1], i);
      assert s[..|s| - 1][..i] == s[..i];
    }
  }

  // ---------------------------------------------------------------- the code

  /** leadingInt: the number and the rest, or None when the number exceeds 2^63. */
  method LeadingInt(s: string) returns (r: Option<(uint64, string)>)
    ensures var number := Leading(s, true);
            if NumberOf(number) <= TWO_TO_63 then r == Some((NumberOf(number), s[|number|..])) else r == None
  {
    var x: uint64 := 0;
    var i := 0;
    ghost var number := Leading(s, true);
    LeadingIsPrefix(s, true);
    while i < |s|
      invariant 0 <= i <= |s| && forall k :: 0 <= k < i ==> IsDigit(s[k])
      invariant AllDigits(s[..i]) && x == NumberOf(s[..i]) && x <= TWO_TO_63 && i <= |number|
    {
      var c := s[i];
      if c < '0' || c > '9' {
        break;
      }
      assert i < |number| && number[..i + 1] == s[..i + 1] && s[..i + 1][..i] == s[..i];
      NumbersGrow(number, i + 1);
      if x > TWO_TO_63 / 10 {
        return None;
      }
      x := x * 10 + c as int - '0' as int;
      if x > TWO_TO_63 {
        return None;
      }
      i := i + 1;
    }
    LeadingIs(s, true, i);
    r := Some((x, s[i..]));
  }

  /** The unit scan. */
  method LeadingUnit(s: string) returns (u: string, rest: string)
    requires '.' !in s
    ensures u == Leading(s, false) && rest == s[|u|..]
  {
    var i := 0;
    while i < |s|
      invariant 0 <= i <= |s| && forall k :: 0 <= k < i ==> !IsDigit(s[k])
    {
      var c := s[i];
      if c == '.' || '0' <= c <= '9' {
        break;
      }
      i := i + 1;
    }
    LeadingIs(s, false, i);
    u, rest := s[..i], s[i..];
  }

  /** `whole` is what was read plus the sum of the rest. */
  ghost predicate Accumulated(s: string, d: nat, whole: Option<nat>) {
    match Sum(s)
    case None => whole == None
    case Some(n) => whole == Some(d + n)
  }

  lemma {:induction false} SumStep(s: string, d: nat, whole: Option<nat>)
    requires s != "" && Accumulated(s, d, whole)
    ensures match FirstTerm(s)
            case None => whole == None
            case Some((worth, rest)) =>
              Accumulated(rest, d + worth, whole) && (whole.Some? ==> whole.value >= d + worth)
  {
  }

  /** One number and its unit, read as the loop of ParseDuration reads them. */
  method NextTerm(s: string) returns (r: Result, rest: string)
    requires s != "" && '.' !in s
    ensures '.' !in rest
    ensures match FirstTerm(s)
            case None => r.Err?
            case Some((worth, after)) => if worth < TWO_TO_63 then r == Ok(worth) && rest == after else r.Err?
  {
    rest := s;
    if !(s[0] == '.' || '0' <= s[0] <= '9') {
      return Err(InvalidDuration), rest;
    }
    var leading := LeadingInt(s);
    ghost var number := Leading(s, true);
    ghost var unit1 := Leading(s[|number|..], false);
    if UnitOf(unit1).Some? {
      WorthIsMultiple(number, unit1);
      TimesIs(NumberOf(number), UnitOf(unit1).value);
    }
    if leading.None? {
      return Err(InvalidDuration), rest;
    }
    var v := leading.value.0;
    var u, after := LeadingUnit(leading.value.1);
    if u == "" {
      return Err(MissingUnit), rest;
    }
    var unit := UnitOf(u);
    if unit.None? {
      return Err(UnknownUnit), rest;
    }
    if v > TWO_TO_63 / unit.value {
      return Err(InvalidDuration), rest;
    }
    v := v * unit.value;
    r, rest := Ok(v), after;
  }

  lemma SumStaysMultiple(d: nat, v: nat)
    requires d % 3 == 0 && v % 3 == 0
    ensures (d + v) % 3 == 0 && d + v != TWO_TO_63
  {
  }

  /** Between rounds: `whole` is what was read plus the sum of the rest. */
  ghost predicate Going(s: string, d: int, whole: Option<nat>) {
    0 <= d < TWO_TO_63 && d % 3 == 0 && Accumulated(s, d, whole)
  }

  ghost predicate TooLarge(whole: Option<nat>) {
    whole.Some? ==> whole.value >= TWO_TO_63
  }

  lemma {:induction false} RoundKeeps(s: string, d: nat, whole: Option<nat>)
    requires s != "" && Going(s, d, whole)
    ensures match FirstTerm(s)
            case None => whole == None
            case Some((worth, rest)) =>
              |rest| < |s| && if d + worth < TWO_TO_63 then Going(rest, d + worth, whole) else TooLarge(whole)
  {
    SumStep(s, d, whole);
    FirstIsMultiple(s);
    if FirstTerm(s).Some? {
      SumStaysMultiple(d, FirstTerm(s).value.0);
    }
  }

  /** One round of ParseDuration's loop; 2^63 itself never comes up. */
  method AddNext(s: string, d: uint64) returns (r: Result, rest: string)
    requires s != "" && '.' !in s && d < TWO_TO_63 && d % 3 == 0
    ensures '.' !in rest
    ensures match FirstTerm(s)
            case None => r.Err?
            case Some((worth, after)) => if d + worth < TWO_TO_63 then r == Ok(d + worth) && rest == after else r.Err?
  {
    FirstIsMultiple(s);
    r, rest := NextTerm(s);
    if r.Err? {
      return;
    }
    SumStaysMultiple(d, r.nanoseconds);
    var sum: uint64 := d + r.nanoseconds;
    if sum > TWO_TO_63 {
      return Err(InvalidDuration), rest;
    }
    r := Ok(sum);
  }

  method Round(s: string, d: uint64, ghost whole: Option<nat>) returns (r: Result, rest: string)
    requires s != "" && '.' !in s && Going(s, d, whole)
    ensures '.' !in rest && (r.Ok? ==> |rest| < |s|)
    ensures match r
            case Ok(sum) => Going(rest, sum, whole)
            case Err(_) => TooLarge(whole)
  {
    RoundKeeps(s, d, whole);
    r, rest := AddNext(s, d);
  }

  method SumAll(text: string) returns (r: Result)
    requires '.' !in text
    ensures match Sum(text)
            case None => r.Err?
            case Some(n) => if n < TWO_TO_63 then r == Ok(n) else r.Err?
  {
    var s := text;
    var d: uint64 := 0;
    ghost var whole := Sum(s);
    while s != ""
      invariant '.' !in s && Going(s, d, whole)
      decreases |s|
    {
      r, s := Round(s, d, whole);
      if r.Err? {
        return;
      }
      d := r.nanoseconds;
    }
    r := Ok(d);
  }

  /**
    ParseDuration is exact: the signed sum the text denotes when it fits 63 bits, an error otherwise and for any
    other text.
   */
  method ParseDuration(orig: string) returns (r: Result)
    requires '.' !in orig
    ensures match Denotes(orig)
            case None => r.Err?
            case Some(n) => if -TWO_TO_63 < n < TWO_TO_63 then r == Ok(n) else r.Err?
  {
    var s := orig;
    var neg := false;
    if s != "" {
      var c := s[0];
      if c == '-' || c == '+' {
        neg := c == '-';
        s := s[1..];
      }
    }
    assert s == Unsigned(orig);
    if s == "0" {
      return Ok(0);
    }
    if s == "" {
      return Err(InvalidDuration);
    }
    r := SumAll(s);
    if r.Err? {
      return;
    }
    var d := r.nanoseconds;
    if neg {
      return Ok(-d);
    }
    if d > TWO_TO_63 - 1 {
      return Err(InvalidDuration);
    }
  }
}
