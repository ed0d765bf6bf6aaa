/** Duration text: an optional minus and groups of digits and unit, read into a
    wrapping 64-bit count of nanoseconds, and printed in the largest dividing unit. */
module Durations {
  import opened Wrappers

  const TWO64 := 0x1_0000_0000_0000_0000
  const MAX := 0x7fff_ffff_ffff_ffff
  const MIN := -0x8000_0000_0000_0000

  type Int64 = x: int | MIN <= x <= MAX

  datatype Error = InvalidDuration | Overflowed

  /** Two's complement wrap-around. */
  function Wrap(x: int): (r: Int64)
    ensures MIN <= x <= MAX ==> r == x
  {
    (x - MIN) % TWO64 + MIN
  }

  lemma WrapAdd(a: int, b: int)
    ensures Wrap(Wrap(a) + Wrap(b)) == Wrap(a + b)
  {
  }

  // -------------------------------------------------------------------- grammar

  const MICROSECOND := 1000
  const MILLISECOND := 1000 * MICROSECOND
  const SECOND := 1000 * MILLISECOND
  const MINUTE := 60 * SECOND
  const HOUR := 60 * MINUTE
  const DAY := 24 * HOUR
  const WEEK := 7 * DAY
  const MONTH := 30 * DAY
  const YEAR := 365 * DAY

  const MICRO_SIGN := '\U{B5}'

  /** The spellings of the units, one constructor each. */
  datatype Unit = N | Ns | U | Us | Mu | Mus | Ms | S | M | H | D | W | Mo | Y

  function Nanos(u: Unit): (n: int)
    ensures n >= 1
  {
    match u
    case N => 1
    case Ns => 1
    case U => MICROSECOND
    case Us => MICROSECOND
    case Mu => MICROSECOND
    case Mus => MICROSECOND
    case Ms => MILLISECOND
    case S => SECOND
    case M => MINUTE
    case H => HOUR
    case D => DAY
    case W => WEEK
    case Mo => MONTH
    case Y => YEAR
  }

  function Spelling(u: Unit): (s: string)
    ensures 1 <= |s| <= 2 && !IsDigit(s[0])
  {
    match u
    case N => "n"
    case Ns => "ns"
    case U => "u"
    case Us => "us"
    case Mu => [MICRO_SIGN]
    case Mus => [MICRO_SIGN, 's']
    case Ms => "ms"
    case S => "s"
    case M => "m"
    case H => "h"
    case D => "d"
    case W => "w"
    case Mo => "mo"
    case Y => "y"
  }

  predicate IsDigit(c: char) {
    '0' <= c <= '9'
  }

  predicate Digits(s: string) {
    s != [] && forall i :: 0 <= i < |s| ==> IsDigit(s[i])
  }

  datatype Group = Group(digits: string, unit: Unit)

  predicate WellFormed(g: Group) {
    Digits(g.digits)
  }

  predicate AllWellFormed(gs: seq<Group>) {
    forall i :: 0 <= i < |gs| ==> WellFormed(gs[i])
  }

  function Render(gs: seq<Group>): string {
    if gs == [] then "" else gs[0].digits + Spelling(gs[0].unit) + Render(gs[1..])
  }

  function DigitValue(c: char): (d: int)
    requires IsDigit(c)
    ensures 0 <= d <= 9
  {
    c as int - '0' as int
  }

  function Value(digits: string): (v: int)
    requires forall i :: 0 <= i < |digits| ==> IsDigit(digits[i])
    ensures v >= 0
  {
    if digits == [] then 0
    else 10 * Value(digits[..|digits| - 1]) + DigitValue(digits[|digits| - 1])
  }

  /** The exact number of nanoseconds, without wrap-around. */
  function Total(gs: seq<Group>): (t: int)
    requires AllWellFormed(gs)
    ensures t >= 0
  {
    if gs == [] then 0 else Value(gs[0].digits) * Nanos(gs[0].unit) + Total(gs[1..])
  }

  /** Every number fits strconv.ParseInt. */
  predicate Fits(gs: seq<Group>)
    requires AllWellFormed(gs)
  {
    forall i :: 0 <= i < |gs| ==> Value(gs[i].digits) <= MAX
  }

  // -------------------------------------------------------------------- splitting

  function LeadingDigits(s: string): (n: nat)
    ensures n <= |s|
    ensures forall i :: 0 <= i < n ==> IsDigit(s[i])
    ensures n < |s| ==> !IsDigit(s[n])
  {
    if s == [] || !IsDigit(s[0]) then 0 else 1 + LeadingDigits(s[1..])
  }

  /** The unit at the front of `s`, two letters where two are possible. */
  function ReadUnit(s: string): (r: Option<Unit>)
    ensures r.Some? ==> |Spelling(r.value)| <= |s|
  {
    if s == [] then None
    else
      var second := if |s| > 1 then s[1] else ' ';
      match s[0]
      case 'n' => Some(if second == 's' then Ns else N)
      case 'u' => Some(if second == 's' then Us else U)
      case 'm' => Some(if second == 's' then Ms else if second == 'o' then Mo else M)
      case 's' => Some(S)
      case 'h' => Some(H)
      case 'd' => Some(D)
      case 'w' => Some(W)
      case 'y' => Some(Y)
      case c => if c == MICRO_SIGN then Some(if second == 's' then Mus else Mu) else None
  }

  lemma ReadUnitSpells(s: string)
    requires ReadUnit(s).Some?
    ensures var w := Spelling(ReadUnit(s).value); |w| <= |s| && s[..|w|] == w
  {
    var w := Spelling(ReadUnit(s).value);
    assert |w| <= |s| && w[0] == s[0] && (|w| == 2 ==> w[1] == s[1]);
  }

  /** The first group of `s` and what follows it. */
  function First(s: string): (r: Option<(Group, string)>)
    ensures r.Some? ==> |r.value.1| < |s|
  {
    var n := LeadingDigits(s);
    CutGroup(s, n, ReadUnit(s[n..]))
  }

  /** The group of `n` digits and a unit, and what follows it. */
  function CutGroup(s: string, n: nat, u: Option<Unit>): (r: Option<(Group, string)>)
    requires n <= |s| && (u.Some? ==> n + |Spelling(u.value)| <= |s|)
    ensures r.Some? ==> |r.value.1| < |s|
  {
    if n == 0 || u.None? then None else Some((Group(s[..n], u.value), s[n + |Spelling(u.value)|..]))
  }

  lemma FirstRenders(s: string)
    requires First(s).Some?
    ensures var (g, rest) := First(s).value; WellFormed(g) && s == g.digits + Spelling(g.unit) + rest
  {
    var n := LeadingDigits(s);
    ReadUnitSpells(s[n..]);
    CutTwice(s, n, |Spelling(ReadUnit(s[n..]).value)|);
  }

  lemma CutTwice(s: string, n: nat, k: nat)
    requires n + k <= |s|
    ensures s == s[..n] + s[n..][..k] + s[n + k..]
  {
  }

  /** A group in front of text that starts a new group is split off. */
  lemma FirstOf(g: Group, rest: string)
    requires WellFormed(g) && (rest != [] ==> IsDigit(rest[0]))
    ensures First(g.digits + Spelling(g.unit) + rest) == Some((g, rest))
  {
    var w, n := Spelling(g.unit), |g.digits|;
    var s := g.digits + w + rest;
    assert s == g.digits + (w + rest);
    ReadUnitOf(g.unit, rest);
    LeadingDigitsOf(g.digits, w + rest);
    assert s[n..] == w + rest && s[..n] == g.digits && s[n + |w|..] == rest;
  }

  function Prepend(gs: seq<Group>, rest: Option<seq<Group>>): Option<seq<Group>> {
    if rest.None? then None else Some(gs + rest.value)
  }

  function Split(s: string): (r: Option<seq<Group>>)
    decreases |s|
  {
    if s == [] then Some([])
    else
      var first := First(s);
      if first.None? then None else Prepend([first.value.0], Split(first.value.1))
  }

  /** A split is a rendering: the groups spell the text and are well formed. */
  lemma {:induction false} SplitRenders(s: string)
    requires Split(s).Some?
    ensures AllWellFormed(Split(s).value) && Render(Split(s).value) == s
    decreases |s|
  {
    if s == [] {
    } else {
      var (g, rest) := First(s).value;
      FirstRenders(s);
      SplitRenders(rest);
      RenderCons(g, Split(rest).value);
    }
  }

  lemma RenderCons(g: Group, gs: seq<Group>)
    ensures Render([g] + gs) == g.digits + Spelling(g.unit) + Render(gs)
    ensures WellFormed(g) && AllWellFormed(gs) ==> AllWellFormed([g] + gs)
  {
    assert ([g] + gs)[1..] == gs;
  }

  lemma {:induction false} LeadingDigitsOf(d: string, rest: string)
    requires forall i :: 0 <= i < |d| ==> IsDigit(d[i])
    requires rest != [] ==> !IsDigit(rest[0])
    ensures LeadingDigits(d + rest) == |d|
  {
    if d == [] {
      assert d + rest == rest;
    } else {
      assert (d + rest)[1..] == d[1..] + rest;
      LeadingDigitsOf(d[1..], rest);
    }
  }

  lemma ReadUnitOf(u: Unit, rest: string)
    requires rest != [] ==> IsDigit(rest[0])
    ensures ReadUnit(Spelling(u) + rest) == Some(u)
  {
    var w := Spelling(u);
    var s := w + rest;
    assert s[0] == w[0];
    if |w| == 2 { assert s[1] == w[1]; } else if rest != [] { assert s[1] == rest[0]; }
  }

  lemma SplitCons(s: string, g: Group, rest: string)
    requires s != [] && First(s) == Some((g, rest))
    ensures Split(s) == Prepend([g], Split(rest))
  {
  }

  /** Every well-formed list of groups is read back from its rendering, so the
      grammar is unambiguous and nothing in it is refused. */
  lemma {:induction false} SplitOfRender(gs: seq<Group>)
    requires AllWellFormed(gs)
    ensures Split(Render(gs)) == Some(gs)
  {
    if gs == [] {
    } else {
      var g := gs[0];
      SplitOfRender(gs[1..]);
      RenderStart(gs[1..]);
      FirstOf(g, Render(gs[1..]));
      SplitCons(Render(gs), g, Render(gs[1..]));
      assert gs == [g] + gs[1..];
    }
  }

  lemma RenderStart(gs: seq<Group>)
    requires AllWellFormed(gs)
    ensures gs != [] ==> |Render(gs)| >= 2 && IsDigit(Render(gs)[0])
  {
  }

  lemma {:induction false} RenderAppend(gs: seq<Group>, hs: seq<Group>)
    ensures Render(gs + hs) == Render(gs) + Render(hs)
  {
    if gs == [] {
      assert gs + hs == hs;
    } else {
      assert (gs + hs)[1..] == gs[1..] + hs;
      RenderAppend(gs[1..], hs);
    }
  }

  lemma {:induction false} TotalAppend(gs: seq<Group>, hs: seq<Group>)
    requires AllWellFormed(gs) && AllWellFormed(hs)
    ensures AllWellFormed(gs + hs) && Total(gs + hs) == Total(gs) + Total(hs)
  {
    if gs == [] {
      assert gs + hs == hs;
    } else {
      assert (gs + hs)[1..] == gs[1..] + hs;
      TotalAppend(gs[1..], hs);
    }
  }

  // -------------------------------------------------------------------- meaning

  /** What groups with a sign are read as. */
  function Evaluate(negative: bool, gs: seq<Group>): Result<Int64, Error>
    requires AllWellFormed(gs)
  {
    var d := Wrap(Total(gs));
    if !Fits(gs) then Err(InvalidDuration)
    else if d < 0 && !negative then Err(Overflowed)
    else if negative then Ok(Wrap(0 - d))
    else Ok(d)
  }

  /** What is behind the sign: groups, or nothing the grammar knows. */
  function Meaning(negative: bool, body: string): Result<Int64, Error> {
    if Split(body).None? then Err(InvalidDuration)
    else
      SplitRenders(body);
      Evaluate(negative, Split(body).value)
  }

  function Parse(s: string): Result<Int64, Error> {
    if |s| < 2 then Err(InvalidDuration)
    else if s[0] == '-' then Meaning(true, s[1..])
    else Meaning(false, s)
  }

  function Text(negative: bool, gs: seq<Group>): string {
    if negative then ['-'] + Render(gs) else Render(gs)
  }

  /** Accepting means being a signed list of groups, and the value is theirs. */
  lemma AcceptedOnlyInGrammar(s: string)
    requires Parse(s).Ok?
    ensures exists negative, gs :: AllWellFormed(gs) && gs != [] && s == Text(negative, gs)
                                   && Parse(s) == Evaluate(negative, gs)
  {
    var negative := s[0] == '-';
    var body := if negative then s[1..] else s;
    SplitRenders(body);
    assert s == Text(negative, Split(body).value);
  }

  /** Every signed list of groups is read with exactly its value. */
  lemma GrammarParses(negative: bool, gs: seq<Group>)
    requires AllWellFormed(gs) && gs != []
    ensures Parse(Text(negative, gs)) == Evaluate(negative, gs)
  {
    var s := Text(negative, gs);
    RenderStart(gs);
    assert negative ==> s[1..] == Render(gs);
    SplitOfRender(gs);
  }

  lemma {:induction false} NumbersWithinTotal(gs: seq<Group>)
    requires AllWellFormed(gs)
    ensures forall i :: 0 <= i < |gs| ==> Value(gs[i].digits) <= Total(gs)
  {
    if gs == [] {
    } else {
      var v, n := Value(gs[0].digits), Nanos(gs[0].unit);
      assert v * n >= v by { ProductAtLeast(v, n); }
      NumbersWithinTotal(gs[1..]);
      assert forall i :: 1 <= i < |gs| ==> gs[i] == gs[1..][i - 1];
    }
  }

  lemma ProductAtLeast(v: int, n: int)
    requires n >= 1 && v >= 0
    ensures v * n >= v
  {
    assert v * n == v + v * (n - 1);
  }

  /** The text was accepted with this value. */
  predicate Exactly(r: Result<Int64, Error>, value: int) {
    r.Ok? && r.value == value
  }

  /** A total that fits 64 bits is read exactly, with its sign. */
  lemma ExactWhenItFits(negative: bool, gs: seq<Group>)
    requires AllWellFormed(gs) && gs != [] && Total(gs) <= MAX
    ensures Parse(Text(negative, gs)) == Ok(if negative then 0 - Total(gs) else Total(gs))
  {
    NumbersWithinTotal(gs);
    EvaluateExact(negative, gs);
    GrammarParses(negative, gs);
  }

  lemma EvaluateExact(negative: bool, gs: seq<Group>)
    requires AllWellFormed(gs) && Fits(gs) && Total(gs) <= MAX
    ensures Evaluate(negative, gs) == Ok(if negative then 0 - Total(gs) else Total(gs))
  {
    var t := Total(gs);
    assert Wrap(t) == t && Wrap(0 - t) == 0 - t;
  }

  /** Without a minus, the exact total is returned only when it fits. */
  lemma UnsignedExactIff(gs: seq<Group>)
    requires AllWellFormed(gs) && gs != []
    ensures Exactly(Parse(Text(false, gs)), Total(gs)) <==> Total(gs) <= MAX
  {
    if Total(gs) <= MAX { ExactWhenItFits(false, gs); }
  }

  /** Behind a minus the overflow check is skipped: every list of numbers that fit one by
      one is accepted, with the wrapped sum. */
  lemma NegativeNeverOverflows(gs: seq<Group>)
    requires AllWellFormed(gs) && gs != []
    ensures Parse(Text(true, gs)) == if Fits(gs) then Ok(Wrap(0 - Total(gs))) else Err(InvalidDuration)
  {
    GrammarParses(true, gs);
    EvaluateNegative(gs);
  }

  lemma EvaluateNegative(gs: seq<Group>)
    requires AllWellFormed(gs)
    ensures Evaluate(true, gs) == if Fits(gs) then Ok(Wrap(0 - Total(gs))) else Err(InvalidDuration)
  {
    WrapNegated(Total(gs));
  }

  lemma WrapNegated(t: int)
    ensures Wrap(0 - Wrap(t)) == Wrap(0 - t)
  {
  }

  lemma NegatedExactIff(r: Result<Int64, Error>, fits: bool, t: int)
    requires t >= 0 && r == if fits then Ok(Wrap(0 - t)) else Err(InvalidDuration)
    ensures Exactly(r, 0 - t) <==> fits && t <= 0 - MIN
  {
  }

  lemma EvaluateSignedExactIff(gs: seq<Group>)
    requires AllWellFormed(gs)
    ensures Exactly(Evaluate(true, gs), 0 - Total(gs)) <==> Fits(gs) && Total(gs) <= 0 - MIN
  {
    EvaluateNegative(gs);
    NegatedExactIff(Evaluate(true, gs), Fits(gs), Total(gs));
  }

  /** With a minus, the exact value is returned exactly when every number fits and the
      total is at most the magnitude of the least duration. */
  lemma SignedExactIff(gs: seq<Group>)
    requires AllWellFormed(gs) && gs != []
    ensures Exactly(Parse(Text(true, gs)), 0 - Total(gs)) <==> Fits(gs) && Total(gs) <= 0 - MIN
  {
    GrammarParses(true, gs);
    EvaluateSignedExactIff(gs);
  }

  /** Two unsigned durations written one after the other add up. */
  lemma ConcatenationAdds(s: string, t: string)
    requires Split(s).Some? && Split(t).Some? && s != [] && t != []
    requires AllWellFormed(Split(s).value) && AllWellFormed(Split(t).value)
    requires Total(Split(s).value) + Total(Split(t).value) <= MAX
    ensures Parse(s).Ok? && Parse(t).Ok? && Parse(s + t).Ok?
    ensures Parse(s + t).value == Parse(s).value + Parse(t).value
  {
    UnsignedExact(s);
    UnsignedExact(t);
    assert Parse(s + t) == Ok(Total(Split(s).value + Split(t).value)) by {
      SplitAppend(s, t);
      TotalAppend(Split(s).value, Split(t).value);
      UnsignedExact(s + t);
    }
    TotalAppend(Split(s).value, Split(t).value);
  }

  lemma UnsignedExact(s: string)
    requires Split(s).Some? && s != [] && AllWellFormed(Split(s).value) && Total(Split(s).value) <= MAX
    ensures Parse(s) == Ok(Total(Split(s).value))
  {
    SplitRenders(s);
    ExactWhenItFits(false, Split(s).value);
  }

  lemma SplitAppend(s: string, t: string)
    requires Split(s).Some? && Split(t).Some?
    ensures Split(s + t) == Some(Split(s).value + Split(t).value)
  {
    SplitRenders(s);
    SplitRenders(t);
    RenderAppend(Split(s).value, Split(t).value);
    SplitOfRender(Split(s).value + Split(t).value);
  }

  // -------------------------------------------------------------------- printing

  function Decimal(n: nat): (s: string)
    ensures Digits(s)
  {
    if n < 10 then [('0' as int + n) as char] else Decimal(n / 10) + [('0' as int + n % 10) as char]
  }

  lemma {:induction false} ValueOfDecimal(n: nat)
    ensures Value(Decimal(n)) == n
  {
    var s := Decimal(n);
    if n >= 10 {
      ValueOfDecimal(n / 10);
      assert s[..|s| - 1] == Decimal(n / 10);
    } else {
      assert s[..0] == [];
    }
  }

  /** The largest unit, in the source's order, that divides the duration. */
  function BestUnit(d: Int64): (u: Unit)
    ensures d % Nanos(u) == 0
  {
    if d == 0 then S
    else if d % YEAR == 0 then Y
    else if d % MONTH == 0 then Mo
    else if d % WEEK == 0 then W
    else if d % DAY == 0 then D
    else if d % HOUR == 0 then H
    else if d % MINUTE == 0 then M
    else if d % SECOND == 0 then S
    else if d % MILLISECOND == 0 then Ms
    else if d % MICROSECOND == 0 then Us
    else Ns
  }

  /** %d of a number. */
  function Signed(q: int): string {
    if q < 0 then "-" + Decimal(0 - q) else Decimal(q)
  }

  function Format(d: Int64): string {
    Signed(d / Nanos(BestUnit(d))) + Spelling(BestUnit(d))
  }

  /** The one group FormatDuration writes. */
  function Printed(d: Int64): Group
    requires d / Nanos(BestUnit(d)) < 0 <==> d < 0
  {
    var q := d / Nanos(BestUnit(d));
    Group(Decimal(if q < 0 then 0 - q else q), BestUnit(d))
  }

  lemma FormatIsText(d: Int64)
    ensures d / Nanos(BestUnit(d)) < 0 <==> d < 0
    ensures Format(d) == Text(d < 0, [Printed(d)]) && WellFormed(Printed(d))
    ensures Total([Printed(d)]) == if d < 0 then 0 - d else d
  {
    var n := Nanos(BestUnit(d));
    Quotient(d, n);
    var q := d / n;
    var g := Printed(d);
    ValueOfDecimal(if q < 0 then 0 - q else q);
    TotalOne(g);
    TextOfOne(q < 0, g);
  }

  lemma TextOfOne(negative: bool, g: Group)
    ensures Text(negative, [g]) == (if negative then "-" + g.digits else g.digits) + Spelling(g.unit)
  {
    RenderCons(g, []);
    assert [g] + [] == [g];
    assert g.digits + Spelling(g.unit) + Render([]) == g.digits + Spelling(g.unit);
    assert ['-'] + (g.digits + Spelling(g.unit)) == "-" + g.digits + Spelling(g.unit);
  }

  lemma TotalOne(g: Group)
    requires WellFormed(g)
    ensures AllWellFormed([g]) && Total([g]) == Value(g.digits) * Nanos(g.unit)
  {
    assert [g][1..] == [];
  }

  lemma Quotient(d: int, n: int)
    requires n >= 1 && d % n == 0
    ensures d / n * n == d && (0 - d / n) * n == 0 - d
    ensures d / n < 0 <==> d < 0
  {
    var q := d / n;
    assert q * n == d;
    if q < 0 { assert q * n <= 0 - n; }
    if q >= 0 { assert q * n >= 0; }
  }

  /** Printing and reading back gives the duration again, for every 64-bit duration
      but the least one, whose magnitude does not fit. */
  lemma RoundTripIff(d: Int64)
    ensures Parse(Format(d)) == Ok(d) <==> d != MIN
  {
    FormatIsText(d);
    if d != MIN {
      ExactWhenItFits(d < 0, [Printed(d)]);
    } else {
      LeastIsRefused();
    }
  }

  lemma LeastIsRefused()
    ensures Parse(Format(MIN)) == Err(InvalidDuration)
  {
    LeastTooLarge();
    NumberRefused(Format(MIN), Printed(MIN));
  }

  lemma LeastTooLarge()
    ensures MIN / Nanos(BestUnit(MIN)) < 0
    ensures Format(MIN) == Text(true, [Printed(MIN)]) && WellFormed(Printed(MIN)) && Value(Printed(MIN).digits) > MAX
  {
    FormatIsText(MIN);
    TotalOne(Printed(MIN));
    LeastIsNanoseconds();
  }

  lemma NumberRefused(s: string, g: Group)
    requires s == Text(true, [g]) && WellFormed(g) && Value(g.digits) > MAX
    ensures Parse(s) == Err(InvalidDuration)
  {
    GrammarParses(true, [g]);
    assert Value([g][0].digits) > MAX;
  }

  lemma LeastIsNanoseconds()
    ensures BestUnit(MIN) == Ns
  {
    assert MIN % MICROSECOND == 192;
    assert MIN % MILLISECOND != 0 && MIN % SECOND != 0 && MIN % MINUTE != 0 && MIN % HOUR != 0;
    assert MIN % DAY != 0 && MIN % WEEK != 0 && MIN % MONTH != 0 && MIN % YEAR != 0;
  }

  lemma OneOf(u: Unit)
    ensures Parse("1" + Spelling(u)) == Ok(Nanos(u))
  {
    var g := Group("1", u);
    assert WellFormed(g) && Value("1") == 1 by { assert "1"[..0] == []; }
    TotalOne(g);
    TextOfOne(false, g);
    ExactWhenItFits(false, [g]);
  }

  /** What one of each unit is worth, in nanoseconds. */
  const UNIT_TEXTS: seq<(Unit, string, int)> := [
    (N, "1n", 1), (Ns, "1ns", 1),
    (U, "1u", 1000), (Us, "1us", 1000), (Mu, "1\U{B5}", 1000), (Mus, "1\U{B5}s", 1000),
    (Ms, "1ms", 1_000_000), (S, "1s", 1_000_000_000), (M, "1m", 60_000_000_000), (H, "1h", 3_600_000_000_000),
    (D, "1d", 86_400_000_000_000), (W, "1w", 604_800_000_000_000), (Mo, "1mo", 2_592_000_000_000_000),
    (Y, "1y", 31_536_000_000_000_000)
  ]

  lemma UnitText(i: nat)
    requires i < |UNIT_TEXTS|
    ensures Parse(UNIT_TEXTS[i].1) == Ok(UNIT_TEXTS[i].2)
  {
    var (u, s, n) := UNIT_TEXTS[i];
    assert s == "1" + Spelling(u) && n == Nanos(u);
    OneText(u, s);
  }

  lemma OneText(u: Unit, s: string)
    requires s == "1" + Spelling(u)
    ensures Parse(s) == Ok(Nanos(u))
  {
    OneOf(u);
  }

  /** A duration is printed in the largest unit that divides it, and nothing in seconds. */
  lemma PrintedInLargestUnit(d: Int64, u: Unit)
    ensures d != 0 && d % Nanos(u) == 0 ==> Nanos(u) <= Nanos(BestUnit(d))
    ensures d == 0 ==> Format(d) == "0s"
  {
  }

  /** Without a minus, what is refused: a number too large, or a total that wraps below zero. */
  lemma UnsignedAnswers(gs: seq<Group>)
    requires AllWellFormed(gs) && gs != []
    ensures var r := Parse(Text(false, gs));
            && (r == Err(InvalidDuration) <==> exists i :: 0 <= i < |gs| && Value(gs[i].digits) > MAX)
            && (r == Err(Overflowed) <==> Fits(gs) && Wrap(Total(gs)) < 0)
  {
    GrammarParses(false, gs);
  }

  const HUGE := Group(Decimal(MAX), N)
  const SEVEN := Group(Decimal(7), N)

  lemma HugeTotal()
    ensures AllWellFormed([HUGE] + [HUGE] + [SEVEN]) && Fits([HUGE] + [HUGE] + [SEVEN])
    ensures Total([HUGE] + [HUGE] + [SEVEN]) == TWO64 + 5
  {
    ValueOfDecimal(MAX);
    ValueOfDecimal(7);
    TotalOne(HUGE);
    TotalOne(SEVEN);
    TotalAppend([HUGE], [HUGE]);
    TotalAppend([HUGE] + [HUGE], [SEVEN]);
    FitsAppend([HUGE], HUGE);
    FitsAppend([HUGE] + [HUGE], SEVEN);
  }

  /** A total past 64 bits can wrap to a small value and be accepted. */
  lemma OverflowCanPass()
    ensures AllWellFormed([HUGE] + [HUGE] + [SEVEN]) && Total([HUGE] + [HUGE] + [SEVEN]) == TWO64 + 5
    ensures Parse(Text(false, [HUGE] + [HUGE] + [SEVEN])) == Ok(5)
  {
    HugeTotal();
    EvaluateUnsigned([HUGE] + [HUGE] + [SEVEN], 5);
    GrammarParses(false, [HUGE] + [HUGE] + [SEVEN]);
  }

  lemma WrapPast()
    ensures Wrap(0 - (TWO64 + 5)) == -5
  {
  }

  /** The same groups behind a minus. */
  lemma NegativeOverflowPasses()
    ensures AllWellFormed([HUGE] + [HUGE] + [SEVEN]) && Total([HUGE] + [HUGE] + [SEVEN]) == TWO64 + 5
    ensures Parse(Text(true, [HUGE] + [HUGE] + [SEVEN])) == Ok(-5)
  {
    HugeTotal();
    WrapPast();
    NegativeNeverOverflows([HUGE] + [HUGE] + [SEVEN]);
  }

  lemma EvaluateUnsigned(gs: seq<Group>, d: int)
    requires AllWellFormed(gs) && Fits(gs) && Total(gs) == TWO64 + d && 0 <= d <= MAX
    ensures Evaluate(false, gs) == Ok(d)
  {
    assert Wrap(Total(gs)) == d;
  }

  // -------------------------------------------------------------------- the loop

  /** Reading `done` off the front of `body` leaves `rest`. */
  ghost predicate Reads(body: string, done: seq<Group>, rest: string) {
    Split(body) == Prepend(done, Split(rest))
  }

  /** The inner loop over the digits. */
  method ScanDigits(a: string, start: nat) returns (i: nat)
    requires start <= |a|
    ensures start <= i <= |a| && i - start == LeadingDigits(a[start..])
  {
    i := start;
    while i < |a| && IsDigit(a[i])
      invariant start <= i <= |a|
      invariant LeadingDigits(a[start..]) == i - start + LeadingDigits(a[i..])
    {
      i := i + 1;
    }
  }

  /** One turn of the loop: the digits, then the unit behind them. */
  method ReadGroup(a: string, start: nat) returns (g: Option<Group>, next: nat)
    requires start < |a|
    ensures g.None? ==> First(a[start..]).None?
    ensures g.Some? ==> start < next <= |a| && WellFormed(g.value) && First(a[start..]) == Some((g.value, a[next..]))
  {
    var i := ScanDigits(a, start);
    ghost var s, n := a[start..], i - start;
    DropTwice(a, start, n);
    var unit := ReadUnit(a[i..]);
    FirstAt(s, n, unit);
    if i == start || unit.None? { return None, i; }
    LeadingAreDigits(s);
    next := i + |Spelling(unit.value)|;
    g := Some(Group(a[start..i], unit.value));
    DropTwice(a, start, next - start);
    TakeDropped(a, start, i);
  }

  lemma TakeDropped(a: string, i: nat, j: nat)
    requires i <= j <= |a|
    ensures a[i..][..j - i] == a[i..j]
  {
  }

  lemma FirstAt(s: string, n: nat, u: Option<Unit>)
    requires n == LeadingDigits(s) && u == ReadUnit(s[n..])
    ensures First(s) == CutGroup(s, n, u)
  {
  }

  lemma LeadingAreDigits(s: string)
    requires LeadingDigits(s) > 0
    ensures Digits(s[..LeadingDigits(s)])
  {
  }

  lemma DropTwice(a: string, i: nat, k: nat)
    requires i + k <= |a|
    ensures a[i..][k..] == a[i + k..]
  {
  }

  /** ParseDuration; runes stand for the bytes of the original. */
  method ParseDuration(a: string) returns (r: Result<Int64, Error>)
    ensures r == Parse(a)
  {
    if |a| < 2 { return Err(InvalidDuration); }
    if a[0] == '-' {
      r := ParseGroups(a, 1, true);
    } else {
      assert a[0..] == a;
      r := ParseGroups(a, 0, false);
    }
  }

  /** The parsing loop: group after group, accumulated with wrap-around. */
  method ParseGroups(a: string, start: nat, negative: bool) returns (r: Result<Int64, Error>)
    requires start <= |a|
    ensures r == Meaning(negative, a[start..])
  {
    var d: Int64 := 0;
    var i := start;
    ghost var body := a[start..];
    ghost var done: seq<Group> := [];
    assert Split(body).Some? ==> done + Split(body).value == Split(body).value;
    while i < |a|
      invariant start <= i <= |a|
      invariant AllWellFormed(done) && Fits(done) && d == Wrap(Total(done))
      invariant Reads(body, done, a[i..])
    {
      var g, next := ReadGroup(a, i);
      if g.None? { return Err(InvalidDuration); }
      ReadsOne(body, done, a[i..], g.value, a[next..]);
      var measure := Value(g.value.digits);
      if measure > MAX {
        TooLarge(negative, body, done, g.value, a[next..]);
        return Err(InvalidDuration);
      }
      d := AddGroup(done, g.value, d);
      FitsAppend(done, g.value);
      done := done + [g.value];
      i := next;
    }
    assert a[i..] == "";
    AllRead(negative, body, done);
    r := Finish(done, d, negative);
  }

  /** d += n * unit, modulo 64 bits. */
  method AddGroup(ghost done: seq<Group>, g: Group, d: Int64) returns (sum: Int64)
    requires AllWellFormed(done) && WellFormed(g) && d == Wrap(Total(done))
    ensures AllWellFormed(done + [g]) && sum == Wrap(Total(done + [g]))
  {
    sum := Wrap(d + Wrap(Value(g.digits) * Nanos(g.unit)));
    TotalAppend(done, [g]);
    TotalOne(g);
    WrapAdd(Total(done), Value(g.digits) * Nanos(g.unit));
  }

  /** The overflow check and the sign. */
  method Finish(ghost done: seq<Group>, d: Int64, negative: bool) returns (r: Result<Int64, Error>)
    requires AllWellFormed(done) && Fits(done) && d == Wrap(Total(done))
    ensures r == Evaluate(negative, done)
  {
    if d < 0 && !negative { return Err(Overflowed); }
    return Ok(if negative then Wrap(0 - d) else d);
  }

  lemma FitsAppend(done: seq<Group>, g: Group)
    requires AllWellFormed(done) && Fits(done) && WellFormed(g) && Value(g.digits) <= MAX
    ensures AllWellFormed(done + [g]) && Fits(done + [g])
  {
  }

  lemma ReadsOne(body: string, done: seq<Group>, s: string, g: Group, rest: string)
    requires s != [] && Reads(body, done, s) && First(s) == Some((g, rest))
    ensures Reads(body, done + [g], rest)
  {
    if Split(rest).Some? { assert done + ([g] + Split(rest).value) == (done + [g]) + Split(rest).value; }
  }

  lemma TooLarge(negative: bool, body: string, done: seq<Group>, g: Group, rest: string)
    requires AllWellFormed(done) && WellFormed(g) && Value(g.digits) > MAX && Reads(body, done + [g], rest)
    ensures Meaning(negative, body) == Err(InvalidDuration)
  {
    if Split(body).Some? {
      SplitRenders(body);
      assert Split(body).value[|done|] == g;
    }
  }

  lemma AllRead(negative: bool, body: string, done: seq<Group>)
    requires AllWellFormed(done) && Fits(done) && Reads(body, done, "")
    ensures Meaning(negative, body) == Evaluate(negative, done)
  {
    assert done + [] == done;
  }
}
