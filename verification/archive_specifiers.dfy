/**
 * Archive specifiers: the user strings that name an archive either by its
 * position in a listing (an ordinal) or by its creation time (a timestamp).
 * Each concrete specifier type has a predicate deciding whether a string is
 * one of its own; calling the abstract base resolves a string to the one
 * concrete type that accepts it.
 *
 * Strings are read over the alphabet of a sign, decimal digits and '.';
 * `ParseInt` and `ParseNumber` are Python's `int()` and `float()` on those
 * strings, with the number kept exact.
 */
module ArchiveSpecifiers {
  import opened Wrappers
  import opened BackendTypes

  /** The boundary between small ordinals and epoch timestamps. */
  const Threshold: int := 1000000000

  predicate IsDigit(c: char) {
    '0' <= c <= '9'
  }

  predicate AllDigits(s: string) {
    forall i :: 0 <= i < |s| ==> IsDigit(s[i])
  }

  /** The value of a string of decimal digits, most significant first. */
  function DigitsValue(s: string): nat
    requires AllDigits(s)
  {
    if |s| == 0 then 0
    else DigitsValue(s[..|s| - 1]) * 10 + (s[|s| - 1] as int - '0' as int)
  }

  function Pow10(n: nat): (p: nat)
    ensures p > 0
  {
    if n == 0 then 1 else 10 * Pow10(n - 1)
  }

  /** Whether the string starts with a minus sign. */
  predicate Negative(s: string) {
    |s| > 0 && s[0] == '-'
  }

  /** The string without its one optional leading sign. */
  function Unsigned(s: string): string {
    if |s| > 0 && (s[0] == '-' || s[0] == '+') then s[1..] else s
  }

  /** The position of the first '.' in `s`, or `|s|` when there is none. */
  function DotIndex(s: string): (k: nat)
    ensures k <= |s|
    ensures forall j :: 0 <= j < k ==> s[j] != '.'
    ensures k < |s| ==> s[k] == '.'
  {
    if |s| == 0 || s[0] == '.' then 0 else 1 + DotIndex(s[1..])
  }

  /** `int(s)`: an optional sign followed by at least one digit. */
  function ParseInt(s: string): Option<int> {
    var body := Unsigned(s);
    if |body| > 0 && AllDigits(body) then
      var v: int := DigitsValue(body);
      Some(if Negative(s) then -v else v)
    else None
  }

  /** `float(s)`: an optional sign, then digits with at most one '.', and at
      least one digit in total (so "1." and ".5" parse, "." does not). */
  function ParseNumber(s: string): Option<real> {
    var body := Unsigned(s);
    var k := DotIndex(body);
    var whole := body[..k];
    var fraction := if k < |body| then body[k + 1..] else [];
    if AllDigits(whole) && AllDigits(fraction) && |whole| + |fraction| > 0 then
      var v := DigitsValue(whole) as real + DigitsValue(fraction) as real / Pow10(|fraction|) as real;
      Some(if Negative(s) then -v else v)
    else None
  }

  /** `OrdinalArchiveSpecifier.acceptable_specifier`: the string is an
      integer below the threshold (negative ones included). */
  predicate AcceptsOrdinal(s: string) {
    match ParseInt(s)
    case None => false
    case Some(v) => v < Threshold
  }

  /** `TimestampArchiveSpecifier.acceptable_specifier`: the string is a
      number that lies above the threshold or is written with a '.'. */
  predicate AcceptsTimestamp(s: string) {
    match ParseNumber(s)
    case None => false
    case Some(v) => v > Threshold as real || '.' in s
  }

  /* Rendering integers, to state what the predicates do on every integer. */

  /** The decimal digits of `n`, most significant first, without leading zeros. */
  function Decimal(n: nat): (s: string)
    ensures |s| > 0 && AllDigits(s)
  {
    var last := [(('0' as int) + n % 10) as char];
    if n < 10 then last else Decimal(n / 10) + last
  }

  /** `str(v)` for an integer. */
  function IntString(v: int): string {
    if v < 0 then "-" + Decimal(-v) else Decimal(v)
  }

  lemma {:induction false} DecimalValue(n: nat)
    ensures DigitsValue(Decimal(n)) == n
  {
    var s := Decimal(n);
    assert s[..|s| - 1] == if n < 10 then [] else Decimal(n / 10);
    if n >= 10 {
      DecimalValue(n / 10);
    }
  }

  /** A string of digits holds no '.', so its number has no fractional part. */
  lemma DigitsHaveNoDot(s: string)
    requires AllDigits(s)
    ensures DotIndex(s) == |s| && '.' !in s
  {
  }

  /** Every integer string parses back to its integer. */
  lemma ParseIntRoundTrip(v: int)
    ensures ParseInt(IntString(v)) == Some(v)
  {
    var s := IntString(v);
    DecimalValue(if v < 0 then -v else v);
    if v < 0 {
      assert Unsigned(s) == Decimal(-v);
    } else {
      assert Unsigned(s) == Decimal(v);
    }
  }

  /** Where `int(s)` succeeds, `float(s)` gives the same number, and the
      string holds no '.'. */
  lemma IntegerIsNumber(s: string)
    requires ParseInt(s).Some?
    ensures ParseNumber(s) == Some(ParseInt(s).value as real)
    ensures '.' !in s
  {
    var body := Unsigned(s);
    DigitsHaveNoDot(body);
    assert body[..|body|] == body;
    if body != s {
      assert s == [s[0]] + body;
    }
  }

  /** No string is accepted by both predicates, so which concrete type a
      string resolves to does not depend on the order types are tried in. */
  lemma NoStringIsBoth(s: string)
    ensures !(AcceptsOrdinal(s) && AcceptsTimestamp(s))
  {
    if AcceptsOrdinal(s) {
      IntegerIsNumber(s);
    }
  }

  /** On integer strings the two predicates split at the threshold: below it
      an ordinal, above it a timestamp, and the threshold itself neither. */
  lemma IntegersSplitAtThreshold(v: int)
    ensures AcceptsOrdinal(IntString(v)) <==> v < Threshold
    ensures AcceptsTimestamp(IntString(v)) <==> v > Threshold
  {
    ParseIntRoundTrip(v);
    IntegerIsNumber(IntString(v));
  }

  lemma FiveIsOnlyAnOrdinal()
    ensures AcceptsOrdinal("5") && !AcceptsTimestamp("5")
  {
    assert IntString(5) == "5";
    IntegersSplitAtThreshold(5);
  }

  lemma ThresholdIsNeither()
    ensures !AcceptsOrdinal("1000000000") && !AcceptsTimestamp("1000000000")
  {
    assert IntString(Threshold) == "1000000000";
    IntegersSplitAtThreshold(Threshold);
  }

  /** A number written with a '.' is a timestamp and never an ordinal,
      whatever its value. */
  lemma DottedIsTimestamp(whole: string, fraction: string)
    requires AllDigits(whole) && AllDigits(fraction) && |whole| > 0
    ensures AcceptsTimestamp(whole + "." + fraction) && !AcceptsOrdinal(whole + "." + fraction)
  {
    var s := whole + "." + fraction;
    assert s[|whole|] == '.';
    assert Unsigned(s) == s;
    DigitsHaveNoDot(whole);
    assert DotIndex(s) == |whole| by {
      assert s[..|whole|] == whole;
    }
    assert s[..|whole|] == whole && s[|whole| + 1..] == fraction;
  }

  lemma DottedTimestampIsOnlyATimestamp()
    ensures AcceptsTimestamp("1416279400.0") && !AcceptsOrdinal("1416279400.0")
  {
    assert "1416279400.0" == "1416279400" + "." + "0";
    DottedIsTimestamp("1416279400", "0");
  }

  /* The specifier types and their instances. */

  datatype SpecifierType = OrdinalType | TimestampType

  /** The classes of the hierarchy: the abstract base and the concrete types. */
  datatype SpecifierClass = AbstractSpecifier | ConcreteSpecifier(kind: SpecifierType)

  /** An archive specifier instance: a position, or a creation time. */
  datatype Specifier = OrdinalSpecifier(ordinal: int) | TimestampSpecifier(timestamp: real)

  datatype SpecifierError =
    | NotANumber(text: string)          // `int()` or `float()` raised ValueError
    | NoSpecifierMatched(text: string)  // the base class found no accepting type

  /** The `acceptable_specifier` class method of a concrete type. */
  predicate Acceptable(t: SpecifierType, s: string) {
    match t
    case OrdinalType => AcceptsOrdinal(s)
    case TimestampType => AcceptsTimestamp(s)
  }

  /** A concrete type's `__init__`: convert the string with `int()` or
      `float()`, without consulting the type's predicate. */
  function Construct(t: SpecifierType, s: string): Result<Specifier, SpecifierError> {
    match t
    case OrdinalType =>
      (match ParseInt(s)
       case Some(v) => Success(OrdinalSpecifier(v))
       case None => Failure(NotANumber(s)))
    case TimestampType =>
      (match ParseNumber(s)
       case Some(v) => Success(TimestampSpecifier(v))
       case None => Failure(NotANumber(s)))
  }

  /** A string a type accepts always converts: acceptance implies `__init__` succeeds. */
  lemma AcceptedConstructs(t: SpecifierType, s: string)
    requires Acceptable(t, s)
    ensures Construct(t, s).Success?
    ensures t == OrdinalType ==> Construct(t, s).value == OrdinalSpecifier(ParseInt(s).value)
    ensures t == TimestampType ==> Construct(t, s).value == TimestampSpecifier(ParseNumber(s).value)
  {
  }

  /** Calling the ordinal type directly skips its predicate: it takes any
      integer, including the timestamp-sized ones the predicate rejects. */
  lemma OrdinalConstructionIsUnchecked(v: int)
    requires v >= Threshold
    ensures !AcceptsOrdinal(IntString(v))
    ensures Construct(OrdinalType, IntString(v)) == Success(OrdinalSpecifier(v))
  {
    ParseIntRoundTrip(v);
  }

  /** Calling the timestamp type directly skips its predicate: it takes any
      integer, including the small ones the predicate rejects. */
  lemma TimestampConstructionIsUnchecked(v: int)
    requires v <= Threshold
    ensures !AcceptsTimestamp(IntString(v))
    ensures Construct(TimestampType, IntString(v)) == Success(TimestampSpecifier(v as real))
  {
    ParseIntRoundTrip(v);
    IntegerIsNumber(IntString(v));
  }

  /** `evaluate(archive, ordinal)`: whether the specifier names the archive at
      position `ordinal` of a listing. */
  predicate Evaluate(spec: Specifier, archive: Archive, ordinal: int) {
    match spec
    case OrdinalSpecifier(n) => ordinal == n
    case TimestampSpecifier(x) => archive.timestamp as real == x
  }

  /** An ordinal specifier looks only at the position: it picks position `n`
      of any listing, whatever the archive there. */
  lemma OrdinalLooksAtPositionOnly(n: int, a: Archive, b: Archive, ordinal: int)
    ensures Evaluate(OrdinalSpecifier(n), a, ordinal) == Evaluate(OrdinalSpecifier(n), b, ordinal)
    ensures Evaluate(OrdinalSpecifier(n), a, ordinal) <==> ordinal == n
  {
  }

  /** A timestamp specifier looks only at the archive's creation time. */
  lemma TimestampLooksAtTimeOnly(x: real, a: Archive, b: Archive, i: int, j: int)
    requires a.timestamp == b.timestamp
    ensures Evaluate(TimestampSpecifier(x), a, i) == Evaluate(TimestampSpecifier(x), b, j)
    ensures Evaluate(TimestampSpecifier(x), a, i) <==> a.timestamp as real == x
  {
  }

  /** What calling the base class yields when `types` are the registered
      concrete types: the accepting type's instance, or a failure when none
      accepts. At most one type accepts (`NoStringIsBoth`), so this does not
      depend on the order the types are tried in. */
  function Resolved(types: set<SpecifierType>, s: string): Result<Specifier, SpecifierError> {
    if OrdinalType in types && AcceptsOrdinal(s) then Construct(OrdinalType, s)
    else if TimestampType in types && AcceptsTimestamp(s) then Construct(TimestampType, s)
    else Failure(NoSpecifierMatched(s))
  }

  /** An accepting registered type is what the string resolves to. */
  lemma ResolvedPicks(types: set<SpecifierType>, t: SpecifierType, s: string)
    requires t in types && Acceptable(t, s)
    ensures Resolved(types, s) == Construct(t, s)
  {
    NoStringIsBoth(s);
  }

  /** With both concrete types registered, a string resolves to an ordinal
      exactly when the ordinal predicate accepts it, to a timestamp exactly
      when the timestamp predicate does, and fails exactly when neither does. */
  lemma ResolvedOutcome(s: string)
    ensures Resolved({OrdinalType, TimestampType}, s) == Success(OrdinalSpecifier(ParseInt(s).GetOr(0))) <==> AcceptsOrdinal(s)
    ensures Resolved({OrdinalType, TimestampType}, s) == Success(TimestampSpecifier(ParseNumber(s).GetOr(0.0))) <==> AcceptsTimestamp(s)
    ensures Resolved({OrdinalType, TimestampType}, s) == Failure(NoSpecifierMatched(s)) <==> !AcceptsOrdinal(s) && !AcceptsTimestamp(s)
  {
    NoStringIsBoth(s);
  }

  /** `CONCRETE_SPECIFIERS` and the metaclass that fills it and dispatches on it. */
  class SpecifierRegistry {
    var concrete: set<SpecifierType>

    constructor ()
      ensures concrete == {}
    {
      concrete := {};
    }

    /** The metaclass `__init__`: a class without its own `ABSTRACT` marker is
        added to the registered concrete types. */
    method Define(cls: SpecifierClass)
      modifies this
      ensures concrete == if cls.ConcreteSpecifier? then old(concrete) + {cls.kind} else old(concrete)
    {
      if cls.ConcreteSpecifier? {
        concrete := concrete + {cls.kind};
      }
    }

    /** The metaclass `__call__`: a registered concrete class is constructed
        directly; any other class tries the registered types, in whatever order
        the set yields them, and constructs the first that accepts `s`. */
    method Call(cls: SpecifierClass, s: string) returns (r: Result<Specifier, SpecifierError>)
      ensures cls.ConcreteSpecifier? && cls.kind in concrete ==> r == Construct(cls.kind, s)
      ensures !(cls.ConcreteSpecifier? && cls.kind in concrete) ==> r == Resolved(concrete, s)
    {
      if cls.ConcreteSpecifier? && cls.kind in concrete {
        return Construct(cls.kind, s);
      }
      var remaining := concrete;
      while remaining != {}
        invariant remaining <= concrete
        invariant forall t :: t in concrete && t !in remaining ==> !Acceptable(t, s)
        decreases remaining
      {
        var t :| t in remaining;
        if Acceptable(t, s) {
          ResolvedPicks(concrete, t, s);
          return Construct(t, s);
        }
        remaining := remaining - {t};
      }
      return Failure(NoSpecifierMatched(s));
    }
  }

  /** Loading the module: the base and the two concrete classes are defined,
      in that order, and only the concrete ones are registered. */
  method DefineSpecifierClasses() returns (registry: SpecifierRegistry)
    ensures fresh(registry) && registry.concrete == {OrdinalType, TimestampType}
  {
    registry := new SpecifierRegistry();
    registry.Define(AbstractSpecifier);
    registry.Define(ConcreteSpecifier(OrdinalType));
    registry.Define(ConcreteSpecifier(TimestampType));
  }
}
