/** A proxy timeout re-expressed as a Gateway API duration, whose components have at most five digits
    (GEP-2257). */
module Duration {
  import opened Base

  datatype Unit = Hour | Minute | Second | Millisecond

  function Factor(u: Unit): nat {
    match u
    case Hour => 3600000
    case Minute => 60000
    case Second => 1000
    case Millisecond => 1
  }

  function Suffix(u: Unit): string {
    match u
    case Hour => "h"
    case Minute => "m"
    case Second => "s"
    case Millisecond => "ms"
  }

  // ----- digits

  predicate Digit(c: char) {
    '0' <= c <= '9'
  }

  function Digits(n: nat): string {
    if n < 10 then [('0' as int + n) as char] else Digits(n / 10) + [('0' as int + n % 10) as char]
  }

  function Number(s: string): nat
    requires forall i :: 0 <= i < |s| ==> Digit(s[i])
  {
    if s == "" then 0 else
    assert Digit(s[|s| - 1]);
    10 * Number(s[..|s| - 1]) + (s[|s| - 1] as int - '0' as int)
  }

  function Power10(k: nat): (r: nat)
    ensures r > 0
  {
    if k == 0 then 1 else 10 * Power10(k - 1)
  }

  /** How many digits a string starts with. */
  function Run(s: string): (k: nat)
    ensures k <= |s| && forall i :: 0 <= i < k ==> Digit(s[i])
    ensures k < |s| ==> !Digit(s[k])
  {
    if s == "" || !Digit(s[0]) then 0 else 1 + Run(s[1..])
  }

  // ----- parsing

  function UnitOf(s: string): Option<Unit> {
    if s == "h" then Some(Hour) else if s == "m" then Some(Minute) else if s == "s" then Some(Second)
    else if s == "ms" || s == "" then Some(Millisecond) else None
  }

  /** The nearest integer, a half going up. */
  function Rounded(n: nat, d: nat): nat
    requires d > 0
  {
    (2 * n + d) / (2 * d)
  }

  /** No integer is nearer, and a half goes up. */
  lemma {:induction false} RoundedIsNearest(n: nat, d: nat)
    requires d > 0
    ensures 2 * n - d < 2 * (Rounded(n, d) * d) <= 2 * n + d
  {
    var r, k := Rounded(n, d), 2 * d;
    assert r * k + (2 * n + d) % k == 2 * n + d;
    assert r * k == 2 * (r * d);
  }

  /** Milliseconds of `digits[.digits][unit]`, with no unit in milliseconds; None for anything else. */
  function Milliseconds(raw: string): Option<nat> {
    var k := Run(raw);
    if k == 0 then None
    else if k < |raw| && raw[k] == '.' then
      var f := Run(raw[k + 1..]);
      var unit := UnitOf(raw[k + 1 + f..]);
      if f == 0 || unit.None? then None else
      Some(Rounded((Number(raw[..k]) * Power10(f) + Number(raw[k + 1..][..f])) * Factor(unit.value), Power10(f)))
    else
      var unit := UnitOf(raw[k..]);
      if unit.None? then None else Some(Number(raw[..k]) * Factor(unit.value))
  }

  // ----- rendering

  predicate Fits(ms: nat, u: Unit) {
    ms % Factor(u) == 0 && ms / Factor(u) <= 99999
  }

  function Ceil(ms: nat): nat {
    (ms + 999) / 1000
  }

  /** The first unit that divides it into few enough parts, and otherwise whole seconds. */
  function UnitFor(ms: nat): Unit {
    if Fits(ms, Hour) then Hour
    else if Fits(ms, Minute) then Minute
    else if Fits(ms, Second) then Second
    else if Fits(ms, Millisecond) then Millisecond
    else Second
  }

  function CountFor(ms: nat): nat {
    if Fits(ms, UnitFor(ms)) then ms / Factor(UnitFor(ms)) else Ceil(ms)
  }

  function Render(ms: nat): string {
    Digits(CountFor(ms)) + Suffix(UnitFor(ms))
  }

  /** `raw` is the trimmed text of the value; None for an absent one. */
  function GatewayDuration(raw: Option<string>): Option<string> {
    if raw.None? || raw.value == "" then None
    else if raw.value == "infinity" || raw.value == "0" then Some("0s")
    else
      var ms := Milliseconds(raw.value);
      if ms.None? then None else Some(Render(ms.value))
  }

  /** Which text a value is rendered as, unit by unit. */
  lemma {:induction false} RenderedAs(ms: nat)
    ensures Render(ms) ==
      if ms % 3600000 == 0 && ms / 3600000 <= 99999 then Digits(ms / 3600000) + "h"
      else if ms % 60000 == 0 && ms / 60000 <= 99999 then Digits(ms / 60000) + "m"
      else if ms % 1000 == 0 && ms / 1000 <= 99999 then Digits(ms / 1000) + "s"
      else if ms <= 99999 then Digits(ms) + "ms"
      else Digits((ms + 999) / 1000) + "s"
  {
    hide Digits, Fits, Factor;
    FitsExactly(ms);
  }

  lemma {:induction false} FitsExactly(ms: nat)
    ensures Fits(ms, Hour) <==> ms % 3600000 == 0 && ms / 3600000 <= 99999
    ensures Fits(ms, Minute) <==> ms % 60000 == 0 && ms / 60000 <= 99999
    ensures Fits(ms, Second) <==> ms % 1000 == 0 && ms / 1000 <= 99999
    ensures Fits(ms, Millisecond) <==> ms <= 99999
    ensures Factor(Hour) == 3600000 && Factor(Minute) == 60000 && Factor(Second) == 1000 && Factor(Millisecond) == 1
  {
  }

  /** An absent or empty value, and one that cannot be read, gives none; `infinity` and `0` disable the
      timeout; any other one is rendered. */
  lemma {:induction false} ConvertedExactly(raw: string)
    ensures GatewayDuration(None) == None && GatewayDuration(Some("")) == None
    ensures raw == "infinity" || raw == "0" ==> GatewayDuration(Some(raw)) == Some("0s")
    ensures raw != "infinity" && raw != "0" && Milliseconds(raw).Some? ==>
      GatewayDuration(Some(raw)) == Some(Render(Milliseconds(raw).value))
    ensures raw != "infinity" && raw != "0" && Milliseconds(raw).None? ==> GatewayDuration(Some(raw)) == None
  {
  }

  // ----- what it stands for

  /** The rendered value. */
  function ValueOf(ms: nat): nat {
    CountFor(ms) * Factor(UnitFor(ms))
  }

  /** Never below the input and less than a second above it. */
  lemma {:induction false} RenderedBounds(ms: nat)
    ensures ms <= ValueOf(ms) < ms + 1000
  {
    var u := UnitFor(ms);
    if Fits(ms, u) { DividesBack(ms, Factor(u)); }
  }

  lemma {:induction false} DividesBack(n: nat, d: nat)
    requires d > 0 && n % d == 0
    ensures n / d * d == n
  {}

  /** Nothing is lost exactly when the input is whole seconds or short enough for milliseconds. */
  lemma {:induction false} LosslessExactly(ms: nat)
    ensures ValueOf(ms) == ms <==> ms % 1000 == 0 || ms <= 99999
  {
    var u := UnitFor(ms);
    if Fits(ms, u) {
      DividesBack(ms, Factor(u));
      if u != Millisecond { WholeSeconds(ms / Factor(u), Factor(u) / 1000); }
    } else {
      CeilExact(ms);
    }
  }

  lemma {:induction false} WholeSeconds(q: nat, k: nat)
    ensures (q * (k * 1000)) % 1000 == 0
  {
    assert q * (k * 1000) == (q * k) * 1000;
  }

  lemma {:induction false} CeilExact(ms: nat)
    ensures Ceil(ms) * 1000 == ms <==> ms % 1000 == 0
  {
  }

  /** When some unit divides the input into at most 99999 parts the coarsest such unit is used, and
      nothing is lost. */
  lemma {:induction false} CoarsestFittingUnit(ms: nat, u: Unit)
    requires Fits(ms, u)
    ensures Fits(ms, UnitFor(ms)) && Factor(UnitFor(ms)) >= Factor(u) && ValueOf(ms) == ms
  {
    DividesBack(ms, Factor(UnitFor(ms)));
  }

  /** The component has at most five digits exactly when some unit fits or the input is at most
      99,999,000 ms. */
  lemma {:induction false} FiveDigitsExactly(ms: nat)
    ensures |Digits(CountFor(ms))| <= 5 <==> (exists u :: Fits(ms, u)) || ms <= 99999000
  {
    LengthExactly(CountFor(ms));
    if u :| Fits(ms, u) { CoarsestFittingUnit(ms, u); }
    if !Fits(ms, UnitFor(ms)) { assert forall u :: !Fits(ms, u) by { forall u ensures !Fits(ms, u) { if Fits(ms, u) { CoarsestFittingUnit(ms, u); } } } }
  }

  lemma {:induction false} LengthExactly(n: nat)
    ensures |Digits(n)| <= 5 <==> n <= 99999
  {
    if n >= 10 {
      assert |Digits(n)| == 1 + |Digits(n / 10)|;
      assert n >= 100 ==> |Digits(n)| == 2 + |Digits(n / 10 / 10)|;
      assert n >= 1000 ==> |Digits(n)| == 3 + |Digits(n / 10 / 10 / 10)|;
      assert n >= 10000 ==> |Digits(n)| == 4 + |Digits(n / 10 / 10 / 10 / 10)|;
      assert n >= 100000 ==> |Digits(n)| == 5 + |Digits(n / 10 / 10 / 10 / 10 / 10)|;
      assert n / 10 / 10 / 10 / 10 == n / 10000;
    }
  }

  // ----- round trip

  lemma {:induction false} DigitsBack(n: nat)
    ensures |Digits(n)| > 0 && forall i :: 0 <= i < |Digits(n)| ==> Digit(Digits(n)[i])
    ensures Number(Digits(n)) == n
  {
    if n >= 10 {
      DigitsBack(n / 10);
      var s := Digits(n);
      assert s[..|s| - 1] == Digits(n / 10);
    } else {
      assert Digits(n)[..0] == "";
    }
  }

  lemma {:induction false} RunOf(digits: string, rest: string)
    requires forall i :: 0 <= i < |digits| ==> Digit(digits[i])
    requires rest == "" || !Digit(rest[0])
    ensures Run(digits + rest) == |digits|
  {
    if digits == "" {
      assert digits + rest == rest;
    } else {
      assert (digits + rest)[1..] == digits[1..] + rest;
      RunOf(digits[1..], rest);
    }
  }

  lemma {:induction false} ReadBack(n: nat, u: Unit)
    ensures Milliseconds(Digits(n) + Suffix(u)) == Some(n * Factor(u))
  {
    var d, s := Digits(n), Suffix(u);
    DigitsBack(n);
    RunOf(d, s);
    assert (d + s)[..|d|] == d && (d + s)[|d|..] == s;
    assert UnitOf(s) == Some(u);
  }

  predicate AllDigits(s: string) {
    s != "" && forall i :: 0 <= i < |s| ==> Digit(s[i])
  }

  lemma {:induction false} NumberConcat(a: string, b: string)
    requires (forall i :: 0 <= i < |a| ==> Digit(a[i])) && forall i :: 0 <= i < |b| ==> Digit(b[i])
    ensures Number(a + b) == Number(a) * Power10(|b|) + Number(b)
    decreases |b|
  {
    if b == "" {
      assert a + b == a;
    } else {
      var front := b[..|b| - 1];
      assert (a + b)[..|a + b| - 1] == a + front;
      NumberConcat(a, front);
      ShiftMore(Number(a), Power10(|front|), Number(front), b[|b| - 1] as int - '0' as int);
    }
  }

  lemma {:induction false} ShiftMore(x: int, y: int, n: int, digit: int)
    ensures 10 * (x * y + n) + digit == x * (10 * y) + (10 * n + digit)
  {}

  /** What a unit is worth in milliseconds; none given means milliseconds. */
  function Worth(unit: string): Option<nat> {
    match unit
    case "h" => Some(3600000)
    case "m" => Some(60000)
    case "s" => Some(1000)
    case "ms" => Some(1)
    case "" => Some(1)
    case _ => None
  }

  lemma {:induction false} UnitExactly(unit: string)
    ensures UnitOf(unit).Some? <==> Worth(unit).Some?
    ensures Worth(unit).Some? ==> Worth(unit).value == Factor(UnitOf(unit).value) && (unit == "" || !Digit(unit[0])) && (unit == "" || unit[0] != '.')
  {
  }

  /** A whole number is read as so many units. */
  lemma {:induction false} WholeRead(a: string, unit: string)
    requires AllDigits(a) && Worth(unit).Some?
    ensures Milliseconds(a + unit) == Some(Number(a) * Worth(unit).value)
  {
    UnitExactly(unit);
    RunOf(a, unit);
    assert (a + unit)[..|a|] == a && (a + unit)[|a|..] == unit;
  }

  /** A decimal is read as the number its digits make, moved by as many places as follow the point, and
      rounded to the nearest millisecond. */
  lemma {:induction false} DecimalRead(a: string, b: string, unit: string)
    requires AllDigits(a) && AllDigits(b) && Worth(unit).Some?
    ensures Milliseconds(a + "." + b + unit) == Some(Rounded(Number(a + b) * Worth(unit).value, Power10(|b|)))
  {
    hide Number, Power10, Rounded, Factor, Run, Suffix, UnitOf, Worth;
    UnitExactly(unit);
    DecimalShape(a, b, unit);
    NumberConcat(a, b);
  }

  ghost predicate Whole(raw: string, a: string, unit: string) {
    AllDigits(a) && Worth(unit).Some? && raw == a + unit
  }

  ghost predicate Decimal(raw: string, a: string, b: string, unit: string) {
    AllDigits(a) && AllDigits(b) && Worth(unit).Some? && raw == a + "." + b + unit
  }

  /** Digits, perhaps a point and more digits, perhaps a unit: nothing else is read. */
  lemma {:induction false} ReadExactly(raw: string)
    ensures Milliseconds(raw).Some? <==> (exists a, unit :: Whole(raw, a, unit)) || exists a, b, unit :: Decimal(raw, a, b, unit)
  {
    hide Number, Power10, Rounded, Factor, UnitOf, Worth, Run, Milliseconds;
    if a, unit :| Whole(raw, a, unit) { WholeRead(a, unit); }
    if a, b, unit :| Decimal(raw, a, b, unit) { DecimalRead(a, b, unit); }
    if Milliseconds(raw).Some? { ReadForm(raw); }
  }

  /** What is read has one of the two forms. */
  lemma {:induction false} ReadForm(raw: string)
    requires Milliseconds(raw).Some?
    ensures (exists a, unit :: Whole(raw, a, unit)) || exists a, b, unit :: Decimal(raw, a, b, unit)
  {
    hide Number, Power10, Rounded, Factor, UnitOf, Worth;
    var k := Run(raw);
    if k < |raw| && raw[k] == '.' {
      var rest := raw[k + 1..];
      var f := Run(rest);
      UnitExactly(raw[k + 1 + f..]);
      Pieces(raw, k, f);
      assert Decimal(raw, raw[..k], rest[..f], raw[k + 1 + f..]);
    } else {
      UnitExactly(raw[k..]);
      assert raw == raw[..k] + raw[k..];
      assert Whole(raw, raw[..k], raw[k..]);
    }
  }

  lemma {:induction false} Pieces(raw: string, k: nat, f: nat)
    requires k < |raw| && raw[k] == '.' && f <= |raw[k + 1..]|
    ensures raw == raw[..k] + "." + raw[k + 1..][..f] + raw[k + 1 + f..]
  {
    var rest := raw[k + 1..];
    assert rest == rest[..f] + rest[f..] && rest[f..] == raw[k + 1 + f..];
    assert raw == raw[..k] + ("." + rest);
  }

  lemma {:induction false} DecimalShape(a: string, b: string, suffix: string)
    requires AllDigits(a) && AllDigits(b) && (suffix == "" || !Digit(suffix[0]))
    ensures var raw := a + "." + b + suffix;
      Run(raw) == |a| < |raw| && raw[|a|] == '.' && raw[..|a|] == a && raw[|a| + 1..] == b + suffix
      && Run(b + suffix) == |b| && (b + suffix)[..|b|] == b && raw[|a| + 1 + |b|..] == suffix
  {
    assert a + "." + b + suffix == a + ("." + (b + suffix));
    RunOf(a, "." + (b + suffix));
    RunOf(b, suffix);
  }

  /** Reading a rendered duration gives the value it stands for: the input itself exactly when nothing
      was lost. */
  lemma {:induction false} ReadsBackExactly(ms: nat)
    ensures Milliseconds(Render(ms)) == Some(ValueOf(ms))
    ensures Milliseconds(Render(ms)) == Some(ms) <==> ms % 1000 == 0 || ms <= 99999
  {
    ReadBack(CountFor(ms), UnitFor(ms));
    LosslessExactly(ms);
  }

  /** A converted duration converted again is still worth the same. */
  lemma {:induction false} ConvertingTwice(raw: string, ms: nat)
    requires Milliseconds(raw) == Some(ms) && raw != "0"
    ensures var once := GatewayDuration(Some(raw)); var twice := GatewayDuration(once);
      once.Some? && twice.Some? && Milliseconds(twice.value) == Milliseconds(once.value)
      && Milliseconds(once.value).Some? && ms <= Milliseconds(once.value).value < ms + 1000
  {
    assert raw != "" && Run("infinity") == 0;
    ReadsBackExactly(ms);
    RenderedBounds(ms);
    ReadsBackExactly(ValueOf(ms));
    RenderedLossless(ms);
    RenderedForm(ms);
  }

  lemma {:induction false} RenderedForm(ms: nat)
    ensures Render(ms) != "" && Render(ms) != "0" && Render(ms) != "infinity"
  {
    DigitsBack(CountFor(ms));
    var s := Render(ms);
    assert Digit(s[0]) && !Digit("infinity"[0]);
    assert s[|s| - 1] == Suffix(UnitFor(ms))[|Suffix(UnitFor(ms))| - 1];
  }

  lemma {:induction false} RenderedLossless(ms: nat)
    ensures ValueOf(ms) % 1000 == 0 || ValueOf(ms) <= 99999
  {
    LosslessExactly(ms);
    if !Fits(ms, UnitFor(ms)) { assert ValueOf(ms) == Ceil(ms) * 1000; }
    else { DividesBack(ms, Factor(UnitFor(ms))); }
  }

  /** Ten seconds given in milliseconds stay ten seconds. */
  lemma {:induction false} TenSeconds()
    ensures Render(10000) == "10s"
  {
    assert CountFor(10000) == 10 && UnitFor(10000) == Second;
    assert Digits(1) == "1";
    assert Digits(10) == Digits(1) + "0";
  }
}
