/** Time points and intervals (opencog/atomspace/Temporal.cc), on a platform where
    `unsigned long` has 64 bits and `unsigned int` has 32. */
module Temporals {
  import opened Wrappers

  const UINT_MAX: nat := 0xFFFF_FFFF
  const ULONG_MODULUS: nat := 0x1_0000_0000_0000_0000
  const ULONG_HALF: nat := 0x8000_0000_0000_0000

  datatype TemporalError = VarianceExceedsMean | UpperBoundReached | LowerAboveUpper

  /** Two machine words and the distribution flag. For a normal distribution `a` is the mean
      and `b` the variance; for a uniform one they are the lower and the upper bound. */
  datatype Temporal = Temporal(a: nat, b: nat, normal: bool)
  {
    /** Both words fit `unsigned long`. */
    predicate Words() {
      a < ULONG_MODULUS && b < ULONG_MODULUS
    }

    /** The difference is taken in machine words. */
    function LowerBound(): int {
      if normal then (a - b) % ULONG_MODULUS else a
    }

    /** The sum is taken in machine words. */
    function UpperBound(): int {
      if normal then (a + b) % ULONG_MODULUS else b
    }

    function CompareTo(other: Temporal): int {
      if LowerBound() < other.LowerBound() then -1
      else if other.LowerBound() < LowerBound() then 1
      else if UpperBound() < other.UpperBound() then -1
      else if other.UpperBound() < UpperBound() then 1
      else if normal then (if other.normal then 0 else -1)
      else (if other.normal then 1 else 0)
    }

    /** The times the class documents: the lower bound is not negative, and the upper bound of a
        normal time, computed without wrapping, fits `unsigned int`. */
    predicate Proper() {
      Words() && if normal then b <= a && a + b <= UINT_MAX else a <= b
    }

    /** Normal times that `Init` lets through because its 64-bit sum wraps. */
    predicate Wrapped() {
      Words() && normal && b <= a && ULONG_MODULUS <= a + b <= ULONG_MODULUS + UINT_MAX
    }
  }

  /** Constructor body shared by all constructors. */
  function Init(a: nat, b: nat, normal: bool): Result<Temporal, TemporalError>
  {
    if normal then
      if b > a then Failure(VarianceExceedsMean)
      else if (a + b) % ULONG_MODULUS > UINT_MAX then Failure(UpperBoundReached)
      else Success(Temporal(a, b, true))
    else if a > b then Failure(LowerAboveUpper)
    else Success(Temporal(a, b, false))
  }

  /** The flag value that means "no time given". */
  const UNDEFINED_TEMPORAL := Temporal(UINT_MAX, UINT_MAX, true)

  /** A constructor call succeeds exactly on the documented times and on the wrapped ones; in
      particular the flag value is never a constructed time. */
  lemma InitAccepts(a: nat, b: nat, normal: bool)
    requires Temporal(a, b, normal).Words()
    ensures var t := Temporal(a, b, normal);
      && (Init(a, b, normal).Success? <==> t.Proper() || t.Wrapped())
      && (Init(a, b, normal).Success? ==> Init(a, b, normal).value == t != UNDEFINED_TEMPORAL)
      && (Init(a, b, normal) == Failure(LowerAboveUpper) <==> !normal && b < a)
      && (Init(a, b, normal) == Failure(VarianceExceedsMean) <==> normal && a < b)
  {
    if normal && b <= a {
      if a + b < ULONG_MODULUS {
        assert (a + b) % ULONG_MODULUS == a + b;
      } else {
        assert (a + b) % ULONG_MODULUS == a + b - ULONG_MODULUS;
      }
    }
  }

  // ---------------------------------------------------------------- order

  /** Two constructed times that no bound tells apart: both words are half the word range away. */
  predicate Twins(t: Temporal, u: Temporal) {
    && t.normal && u.normal
    && t.a - u.a == t.b - u.b
    && (t.a - u.a == ULONG_HALF || u.a - t.a == ULONG_HALF)
  }

  /** The class promises that comparing yields 0 for equal times only. Over everything a constructor
      accepts this holds except for twins. */
  lemma CompareToZero(t: Temporal, u: Temporal)
    requires t.Words() && u.Words()
    requires Init(t.a, t.b, t.normal).Success? && Init(u.a, u.b, u.normal).Success?
    ensures t.CompareTo(u) == 0 <==> t == u || Twins(t, u)
  {
    InitAccepts(t.a, t.b, t.normal);
    InitAccepts(u.a, u.b, u.normal);
    BoundsInWords(t);
    BoundsInWords(u);
  }

  lemma BoundsInWords(t: Temporal)
    requires t.Words() && (t.normal ==> t.b <= t.a)
    ensures t.normal ==> t.LowerBound() == t.a - t.b
    ensures t.normal ==> t.UpperBound() == if t.a + t.b < ULONG_MODULUS then t.a + t.b else t.a + t.b - ULONG_MODULUS
  {
    if t.normal {
      assert (t.a - t.b) % ULONG_MODULUS == t.a - t.b;
      if t.a + t.b < ULONG_MODULUS {
        assert (t.a + t.b) % ULONG_MODULUS == t.a + t.b;
      } else {
        assert (t.a + t.b) % ULONG_MODULUS == t.a + t.b - ULONG_MODULUS;
      }
    }
  }

  /** A pair of different constructed times that compare as equal. */
  lemma TwinsExist()
    ensures var t, u := Init(0, 0, true), Init(ULONG_HALF, ULONG_HALF, true);
      t.Success? && u.Success? && t != u && t.value.CompareTo(u.value) == 0
  {
    assert (ULONG_HALF + ULONG_HALF) % ULONG_MODULUS == 0;
  }

  /** Comparing is a total order on everything, up to its own notion of equality. */
  lemma CompareToIsOrder(t: Temporal, u: Temporal, v: Temporal)
    ensures t.CompareTo(u) in {-1, 0, 1}
    ensures t.CompareTo(u) == -u.CompareTo(t)
    ensures t.CompareTo(u) <= 0 && u.CompareTo(v) <= 0 ==> t.CompareTo(v) <= 0
    ensures t.CompareTo(u) <= 0 && u.CompareTo(v) < 0 ==> t.CompareTo(v) < 0
    ensures t.CompareTo(u) < 0 && u.CompareTo(v) <= 0 ==> t.CompareTo(v) < 0
  {
  }

  /** Times that the constructors are documented to produce. */
  type Time = t: Temporal | t.Proper() witness Temporal(0, 0, false)

  ghost function Lo(t: Time): nat {
    if t.normal then t.a - t.b else t.a
  }

  ghost function Hi(t: Time): nat {
    if t.normal then t.a + t.b else t.b
  }

  /** The place of a time in the order, as one number. */
  ghost function Rank(t: Time): nat {
    Lo(t) * 0x2_0000_0000_0000_0000 + Hi(t) * 2 + if t.normal then 0 else 1
  }

  /** Times come in the order of their starts, then of their ends, and at last the normal one first. */
  lemma RankFields(t: Time, u: Time)
    ensures Rank(t) < Rank(u) <==>
      Lo(t) < Lo(u) || (Lo(t) == Lo(u) && (Hi(t) < Hi(u) || (Hi(t) == Hi(u) && t.normal && !u.normal)))
    ensures Rank(t) == Rank(u) <==> t == u
    ensures Lo(t) <= Hi(t)
  {
    assert Hi(t) < ULONG_MODULUS && Hi(u) < ULONG_MODULUS;
  }

  /** On documented times nothing wraps, and comparing is the order of ranks. */
  lemma CompareToIsRank(t: Time, u: Time)
    ensures t.LowerBound() == Lo(t) && t.UpperBound() == Hi(t)
    ensures t.CompareTo(u) < 0 <==> Rank(t) < Rank(u)
    ensures t.CompareTo(u) == 0 <==> t == u
    ensures t.CompareTo(u) > 0 <==> Rank(t) > Rank(u)
  {
    BoundsInWords(t);
    BoundsInWords(u);
    RankFields(t, u);
    RankFields(u, t);
  }

  method GetLowerBound(t: Time) returns (r: nat)
    ensures r == Lo(t)
  {
    CompareToIsRank(t, t);
    r := t.LowerBound();
  }

  method GetUpperBound(t: Time) returns (r: nat)
    ensures r == Hi(t)
  {
    CompareToIsRank(t, t);
    r := t.UpperBound();
  }

  // ---------------------------------------------------------------- names

  function DigitChar(d: nat): char
    requires d < 10
  {
    ['0', '1', '2', '3', '4', '5', '6', '7', '8', '9'][d]
  }

  predicate IsDigit(c: char) {
    '0' <= c <= '9'
  }

  function DigitValue(c: char): nat
    requires IsDigit(c)
  {
    c as int - '0' as int
  }

  /** What `%lu` prints. */
  function Decimal(n: nat): string {
    if n < 10 then [DigitChar(n)] else Decimal(n / 10) + [DigitChar(n % 10)]
  }

  /** Reads digits as long as there are any. */
  function ReadDigits(s: string, acc: nat): nat {
    if s == "" || !IsDigit(s[0]) then acc else ReadDigits(s[1..], 10 * acc + DigitValue(s[0]))
  }

  /** What the C library takes for a blank. */
  predicate IsBlank(c: char) {
    c == ' ' || 9 <= c as int <= 13
  }

  function SkipBlanks(s: string): string {
    if s == "" || !IsBlank(s[0]) then s else SkipBlanks(s[1..])
  }

  /** Blanks, an optional sign, and digits: whether there is a minus, and the digits. */
  function SignedDigits(s: string): (bool, nat) {
    var r := SkipBlanks(s);
    if r != "" && r[0] in {'+', '-'} then (r[0] == '-', ReadDigits(r[1..], 0)) else (false, ReadDigits(r, 0))
  }

  /** `strtoul` in base ten: a minus negates in machine words, too large a number saturates. */
  function StrToUL(s: string): nat {
    var (minus, n) := SignedDigits(s);
    if n >= ULONG_MODULUS then ULONG_MODULUS - 1
    else if minus then (ULONG_MODULUS - n) % ULONG_MODULUS
    else n
  }

  /** Whether `atoi` gives something else than zero: it saturates in a `long`, of which it keeps an `int`. */
  predicate NonZero(s: string) {
    var (minus, n) := SignedDigits(s);
    var most := if minus then ULONG_HALF else ULONG_HALF - 1;
    (if n > most then most else n) % (UINT_MAX + 1) != 0
  }

  function TimeNodeName(t: Temporal): string {
    if t.normal then Decimal(t.a) + ":" + Decimal(t.b) + ":" + "1"
    else if t.a == t.b then Decimal(t.a)
    else Decimal(t.a) + ":" + Decimal(t.b)
  }

  /** The part of a name before its first colon. */
  function BeforeColon(s: string): string {
    if s == "" || s[0] == ':' then "" else [s[0]] + BeforeColon(s[1..])
  }

  /** The fields of a name, between colons; a third colon does not separate anything. */
  function FromTimeNodeName(name: string): Result<Temporal, TemporalError>
  {
    var a := StrToUL(name);
    var i := |BeforeColon(name)|;
    BeforeColonLength(name);
    if i == |name| then Init(a, a, false)
    else
      var rest := name[i + 1..];
      var b := StrToUL(rest);
      var j := |BeforeColon(rest)|;
      BeforeColonLength(rest);
      if j == |rest| then Init(a, b, false)
      else Init(a, b, NonZero(rest[j + 1..]))
  }

  lemma {:induction false} BeforeColonLength(s: string)
    ensures |BeforeColon(s)| <= |s|
    ensures |BeforeColon(s)| < |s| ==> s[|BeforeColon(s)|] == ':'
    ensures forall k :: 0 <= k < |BeforeColon(s)| ==> s[k] != ':'
  {
    if s != "" && s[0] != ':' {
      BeforeColonLength(s[1..]);
    }
  }

  /** Walks a pointer over the name. */
  method GetFromTimeNodeName(name: string) returns (r: Result<Temporal, TemporalError>)
    ensures r == FromTimeNodeName(name)
  {
    hide StrToUL, Init, NonZero, BeforeColon;
    var a := StrToUL(name);
    var p := 0;
    while p < |name| && name[p] != ':'
      invariant p <= |name|
      invariant forall k :: 0 <= k < p ==> name[k] != ':'
    {
      p := p + 1;
    }
    BeforeColonAt(name, p);
    if p == |name| {
      return Init(a, a, false);
    }
    var q := p + 1;
    ghost var rest := name[q..];
    var b := StrToUL(name[q..]);
    while q < |name| && name[q] != ':'
      invariant p + 1 <= q <= |name|
      invariant forall k :: 0 <= k < q - (p + 1) ==> rest[k] != ':'
    {
      q := q + 1;
    }
    BeforeColonAt(rest, q - (p + 1));
    if q == |name| {
      return Init(a, b, false);
    }
    assert rest[q - p..] == name[q + 1..];
    return Init(a, b, NonZero(name[q + 1..]));
  }

  lemma {:induction false} BeforeColonAt(s: string, p: nat)
    requires p <= |s| && (p < |s| ==> s[p] == ':')
    requires forall k :: 0 <= k < p ==> s[k] != ':'
    ensures BeforeColon(s) == s[..p]
  {
    if p > 0 {
      BeforeColonAt(s[1..], p - 1);
      assert s[..p] == [s[0]] + s[1..][..p - 1];
    }
  }

  lemma {:induction false} DecimalDigits(n: nat)
    ensures Decimal(n) != ""
    ensures forall k :: 0 <= k < |Decimal(n)| ==> IsDigit(Decimal(n)[k])
  {
    if n >= 10 {
      DecimalDigits(n / 10);
    }
  }

  lemma {:induction false} ReadDigitsSplit(d: string, rest: string, acc: nat)
    requires forall k :: 0 <= k < |d| ==> IsDigit(d[k])
    ensures ReadDigits(d + rest, acc) == ReadDigits(rest, ReadDigits(d, acc))
  {
    if d == "" {
      assert d + rest == rest;
    } else {
      assert (d + rest)[1..] == d[1..] + rest;
      ReadDigitsSplit(d[1..], rest, 10 * acc + DigitValue(d[0]));
    }
  }

  /** Reading back what was printed, at any length. */
  lemma {:induction false} ReadDecimal(n: nat, rest: string)
    requires rest == "" || !IsDigit(rest[0])
    ensures ReadDigits(Decimal(n) + rest, 0) == n
  {
    DecimalDigits(n);
    ReadDigitsSplit(Decimal(n), rest, 0);
    ReadsBack(n);
  }

  lemma LastDigit(acc: nat, d: nat)
    requires d < 10
    ensures ReadDigits([DigitChar(d)], acc) == 10 * acc + d
  {
    assert DigitValue(DigitChar(d)) == d;
    assert [DigitChar(d)][1..] == "";
  }

  lemma {:induction false} ReadsBack(n: nat)
    ensures ReadDigits(Decimal(n), 0) == n
  {
    if n >= 10 {
      DecimalDigits(n / 10);
      ReadDigitsSplit(Decimal(n / 10), [DigitChar(n % 10)], 0);
      ReadsBack(n / 10);
      hide Decimal;
      LastDigit(n / 10, n % 10);
    }
  }

  /** A printed number has no blanks and no sign in front. */
  lemma ReadPrinted(n: nat, rest: string)
    requires rest == "" || !IsDigit(rest[0])
    ensures SignedDigits(Decimal(n) + rest) == (false, n)
  {
    DecimalDigits(n);
    ReadDecimal(n, rest);
    hide Decimal, ReadDigits;
    assert IsDigit((Decimal(n) + rest)[0]);
  }

  /** What the parser sees of a printed word that ends the name or is followed by a colon. */
  lemma ReadField(n: nat, tail: string)
    requires n < ULONG_MODULUS
    requires tail == "" || tail[0] == ':'
    ensures StrToUL(Decimal(n) + tail) == n
    ensures |BeforeColon(Decimal(n) + tail)| == |Decimal(n)|
  {
    DecimalDigits(n);
    ReadPrinted(n, tail);
    BeforeColonAt(Decimal(n) + tail, |Decimal(n)|);
  }

  lemma ParseTwoFields(a: nat, b: nat, tail: string)
    requires a < ULONG_MODULUS && b < ULONG_MODULUS
    requires tail == "" || tail[0] == ':'
    ensures FromTimeNodeName(Decimal(a) + (":" + (Decimal(b) + tail))) ==
      Init(a, b, tail != "" && NonZero(tail[1..]))
  {
    hide Decimal, StrToUL, NonZero, BeforeColon, Init;
    var rest := Decimal(b) + tail;
    var name := Decimal(a) + (":" + rest);
    ReadField(a, ":" + rest);
    assert name[|Decimal(a)| + 1..] == rest;
    ReadField(b, tail);
    assert tail != "" ==> rest[|Decimal(b)| + 1..] == tail[1..];
  }

  /** Parsing a printed name hands the printed words back to the constructor, whatever they are. */
  lemma NameReachesInit(t: Temporal)
    requires t.Words()
    ensures FromTimeNodeName(TimeNodeName(t)) == Init(t.a, t.b, t.normal)
  {
    var name := TimeNodeName(t);
    if t.normal {
      assert name == Decimal(t.a) + (":" + (Decimal(t.b) + ":1"));
      ParseTwoFields(t.a, t.b, ":1");
      assert ":1"[1..] == "1" == Decimal(1) + "";
      ReadPrinted(1, "");
    } else if t.a == t.b {
      assert name == Decimal(t.a) + "";
      ReadField(t.a, "");
    } else {
      assert name == Decimal(t.a) + (":" + (Decimal(t.b) + ""));
      ParseTwoFields(t.a, t.b, "");
    }
  }

  // ---------------------------------------------------------------- the shape of a name

  /** The parts of a text between its colons. */
  function Fields(s: string): (fields: seq<string>)
    ensures fields != []
  {
    BeforeColonLength(s);
    var i := |BeforeColon(s)|;
    if i == |s| then [s] else [s[..i]] + Fields(s[i + 1..])
  }

  lemma {:induction false} ColonsSeparate(s: string)
    ensures |Fields(s)| == multiset(s)[':'] + 1
  {
    BeforeColonLength(s);
    var i := |BeforeColon(s)|;
    assert ':' !in s[..i];
    if i < |s| {
      ColonsSeparate(s[i + 1..]);
      assert s == s[..i] + [':'] + s[i + 1..];
    } else {
      assert s == s[..i];
    }
  }

  lemma FieldsNext(d: string, rest: string)
    requires forall k :: 0 <= k < |d| ==> IsDigit(d[k])
    ensures Fields(d) == [d] && Fields(d + (":" + rest)) == [d] + Fields(rest)
  {
    var s := d + (":" + rest);
    BeforeColonAt(d, |d|);
    BeforeColonAt(s, |d|);
    assert s[..|d|] == d && s[|d| + 1..] == rest;
  }

  /** A number without superfluous zeros in front. */
  predicate IsNumeral(s: string) {
    s != "" && (forall k :: 0 <= k < |s| ==> IsDigit(s[k])) && (s[0] == '0' ==> |s| == 1)
  }

  predicate NumeralFor(s: string, n: nat) {
    IsNumeral(s) && ReadDigits(s, 0) == n
  }

  lemma {:induction false} DecimalIsNumeral(n: nat)
    ensures NumeralFor(Decimal(n), n) && (Decimal(n)[0] == '0' <==> n == 0)
  {
    DecimalDigits(n);
    ReadsBack(n);
    if n >= 10 {
      DecimalIsNumeral(n / 10);
    }
  }

  /** There is only one numeral for a number. */
  lemma {:induction false} OneNumeral(s: string, n: nat)
    requires NumeralFor(s, n)
    ensures s == Decimal(n)
    decreases |s|
  {
    var k := |s| - 1;
    var d := DigitValue(s[k]);
    assert s == s[..k] + [s[k]] && DigitChar(d) == s[k];
    ReadDigitsSplit(s[..k], [s[k]], 0);
    LastDigit(ReadDigits(s[..k], 0), d);
    if k > 0 {
      OneNumeral(s[..k], ReadDigits(s[..k], 0));
      DecimalIsNumeral(ReadDigits(s[..k], 0));
    }
  }

  /** What the name of a time looks like: one numeral for a point, the two bounds otherwise, and for a normal
      time the mean, the variance, and a one. */
  predicate Names(name: string, t: Temporal) {
    var fields := Fields(name);
    && (|fields| == 1 <==> !t.normal && t.a == t.b)
    && (|fields| == 2 <==> !t.normal && t.a != t.b)
    && (|fields| == 3 <==> t.normal)
    && NumeralFor(fields[0], t.a)
    && (|fields| > 1 ==> NumeralFor(fields[1], t.b))
    && (|fields| > 2 ==> fields[2] == "1")
  }

  /** The name of a time looks like this, and nothing else does. */
  lemma NameIs(t: Temporal, name: string)
    ensures Names(name, t) <==> name == TimeNodeName(t)
  {
    var a, b := Decimal(t.a), Decimal(t.b);
    DecimalIsNumeral(t.a);
    DecimalIsNumeral(t.b);
    hide Decimal, ReadDigits;
    NameFields(t);
    if Names(name, t) {
      var fields := Fields(name);
      OneNumeral(fields[0], t.a);
      if |fields| > 1 {
        OneNumeral(fields[1], t.b);
      }
      SameFields(name, TimeNodeName(t));
    }
  }

  lemma NameFields(t: Temporal)
    ensures Fields(TimeNodeName(t)) ==
      if t.normal then [Decimal(t.a), Decimal(t.b), "1"]
      else if t.a == t.b then [Decimal(t.a)] else [Decimal(t.a), Decimal(t.b)]
  {
    var a, b := Decimal(t.a), Decimal(t.b);
    DecimalDigits(t.a);
    DecimalDigits(t.b);
    hide Decimal, Fields;
    FieldsNext(a, b + ":1");
    FieldsNext(a, b);
    FieldsNext(b, "1");
    FieldsNext("1", "");
    assert a + ":" + b + ":" + "1" == a + (":" + (b + ":1")) && b + ":1" == b + (":" + "1");
    assert a + ":" + b == a + (":" + b);
  }

  lemma {:induction false} SameFields(s: string, t: string)
    requires Fields(s) == Fields(t)
    ensures s == t
    decreases |s|
  {
    BeforeColonLength(s);
    BeforeColonLength(t);
    var i, j := |BeforeColon(s)|, |BeforeColon(t)|;
    assert s[..i] == Fields(s)[0] == Fields(t)[0] == t[..j];
    if i < |s| && j < |t| {
      assert Fields(s)[1..] == Fields(s[i + 1..]) && Fields(t)[1..] == Fields(t[j + 1..]);
      SameFields(s[i + 1..], t[j + 1..]);
      assert s == s[..i] + [':'] + s[i + 1..] && t == t[..j] + [':'] + t[j + 1..];
    } else {
      assert i < |s| ==> |Fields(s)| > 1;
      assert j < |t| ==> |Fields(t)| > 1;
    }
  }

  /** Names have only digits and colons: none for a point, one for an interval, two for a normal time. */
  lemma NameShape(t: Temporal)
    ensures var name := TimeNodeName(t);
      && (forall k :: 0 <= k < |name| ==> IsDigit(name[k]) || name[k] == ':')
      && (multiset(name)[':'] == 0 <==> !t.normal && t.a == t.b)
      && (multiset(name)[':'] == 1 <==> !t.normal && t.a != t.b)
      && (multiset(name)[':'] == 2 <==> t.normal)
      && (forall f :: f in Fields(name) ==> IsNumeral(f))
  {
    DecimalIsNumeral(t.a);
    DecimalIsNumeral(t.b);
    hide Decimal, ReadDigits;
    NameFields(t);
    ColonsSeparate(TimeNodeName(t));
    hide Fields;
  }

  /** A point, an interval, and a normal time. */
  lemma SomeNames()
    ensures TimeNodeName(Temporal(5, 5, false)) == "5"
    ensures TimeNodeName(Temporal(10, 255, false)) == "10:255"
    ensures TimeNodeName(Temporal(120, 0, true)) == "120:0:1"
  {
    assert Decimal(25) == "25" && Decimal(12) == "12";
    assert Decimal(10) == "10" && Decimal(255) == "255" && Decimal(120) == "120";
  }

  /** The name of a time point, made without making the time. */
  function TimestampName(timestamp: nat): string {
    Decimal(timestamp)
  }

  lemma TimestampIsPoint(timestamp: nat)
    requires timestamp < ULONG_MODULUS
    ensures Init(timestamp, timestamp, false).Success?
    ensures TimestampName(timestamp) == TimeNodeName(Init(timestamp, timestamp, false).value)
    ensures forall t: Temporal :: TimeNodeName(t) == TimestampName(timestamp) <==>
      !t.normal && t.a == timestamp && t.b == timestamp
  {
    var point := Temporal(timestamp, timestamp, false);
    forall t: Temporal | TimeNodeName(t) == TimestampName(timestamp) ensures t == point {
      NameIs(t, TimeNodeName(t));
      NameIs(point, TimeNodeName(t));
    }
  }

  // ---------------------------------------------------------------- what else can be read

  lemma {:induction false} BlanksSkipped(blanks: string, rest: string)
    requires forall k :: 0 <= k < |blanks| ==> IsBlank(blanks[k])
    ensures SkipBlanks(blanks + rest) == SkipBlanks(rest)
  {
    if blanks == "" {
      assert blanks + rest == rest;
    } else {
      assert (blanks + rest)[1..] == blanks[1..] + rest;
      BlanksSkipped(blanks[1..], rest);
    }
  }

  lemma ReadSigned(blanks: string, sign: string, n: nat, rest: string)
    requires (forall k :: 0 <= k < |blanks| ==> IsBlank(blanks[k])) && sign in {"", "+", "-"}
    requires rest == "" || !IsDigit(rest[0])
    ensures SignedDigits(blanks + (sign + (Decimal(n) + rest))) == (sign == "-", n)
  {
    BlanksSkipped(blanks, sign + (Decimal(n) + rest));
    DecimalDigits(n);
    ReadDecimal(n, rest);
    hide Decimal, ReadDigits;
    var r := sign + (Decimal(n) + rest);
    if sign == "" {
      assert r == Decimal(n) + rest && IsDigit(r[0]);
    } else {
      assert r[1..] == Decimal(n) + rest;
    }
  }

  /** A word as the C library reads it, whatever blanks and signs come before it: a minus takes it to its
      negative in machine words, and too large a number to the greatest word. */
  lemma ReadWord(blanks: string, sign: string, n: nat, rest: string)
    requires forall k :: 0 <= k < |blanks| ==> blanks[k] as int in {9, 10, 11, 12, 13, 32}
    requires sign in {"", "+", "-"}
    requires rest == "" || !IsDigit(rest[0])
    ensures var r := StrToUL(blanks + (sign + (Decimal(n) + rest)));
      && r < ULONG_MODULUS
      && (n >= ULONG_MODULUS ==> r == ULONG_MODULUS - 1)
      && (n < ULONG_MODULUS && sign == "-" ==> (r + n == ULONG_MODULUS || r + n == 0))
      && (n < ULONG_MODULUS && sign != "-" ==> r == n)
  {
    ReadSigned(blanks, sign, n, rest);
    hide SignedDigits, Decimal;
    if 0 < n < ULONG_MODULUS {
      assert (ULONG_MODULUS - n) % ULONG_MODULUS == ULONG_MODULUS - n;
    }
  }

  /** As a flag it is taken for an `int` after it was cut to the range of a `long`. */
  lemma ReadFlag(blanks: string, sign: string, n: nat, rest: string)
    requires forall k :: 0 <= k < |blanks| ==> blanks[k] as int in {9, 10, 11, 12, 13, 32}
    requires sign in {"", "+", "-"}
    requires rest == "" || !IsDigit(rest[0])
    ensures NonZero(blanks + (sign + (Decimal(n) + rest))) <==>
      if n < ULONG_HALF then n % 0x1_0000_0000 != 0 else sign != "-"
  {
    ReadSigned(blanks, sign, n, rest);
    hide SignedDigits, Decimal;
    assert ULONG_HALF % (UINT_MAX + 1) == 0 && (ULONG_HALF - 1) % (UINT_MAX + 1) != 0;
  }

  /** Printing and parsing give the time back exactly when a constructor could have made it. */
  lemma NameRoundTrip(t: Temporal)
    requires t.Words()
    ensures FromTimeNodeName(TimeNodeName(t)) == Success(t) <==> t.Proper() || t.Wrapped()
  {
    NameReachesInit(t);
    InitAccepts(t.a, t.b, t.normal);
  }
}
