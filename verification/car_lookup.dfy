/**
 The car "database" and the plate lookup with its advisory rules
 (`find_car_details` in Wonder2.py).
 */
module CarLookup {
  import opened Options
  import Ascii
  import Decimal
  import opened Lines

  /** One row of Cars.csv: Car_Number, Age_Of_Car, Months_without_Servicing. */
  datatype Car = Car(plate: string, age: nat, months: nat)

  /** The rows written to Cars.csv when the file does not exist yet. */
  const DefaultCars: seq<Car> := [
    Car("IT20 BOM", 5, 3),
    Car("MH12 AB1234", 11, 7),
    Car("DL10 XY9876", 3, 2)
  ]

  /** Ages strictly above this draw the old-car warning. */
  const MaxAge: nat := 10
  /** Months without servicing strictly above this draw the service reminder. */
  const MaxMonthsWithoutService: nat := 6

  /** The two advisory lines the details text can end with, and the answer
      when no row matches. */
  const OldCarLine: string := "Warning: Car is too old " + "and may harm the environment!"
  const ServiceLine: string := "ஏய் நண்பா, சேவை செய் " + "(Service the car!)"
  const NotFoundMessage: string := "Car details not found."

  /** The comparison key of a plate: spaces deleted, then upper-cased. */
  function PlateKey(plate: string): (key: string)
    ensures ' ' !in key
    ensures forall i :: 0 <= i < |key| ==> !Ascii.IsLower(key[i])
  {
    Ascii.Upper(Ascii.DeleteSpaces(plate))
  }

  lemma PlateKeyIdempotent(plate: string)
    ensures PlateKey(PlateKey(plate)) == PlateKey(plate)
  {
    var key := PlateKey(plate);
    Ascii.DeleteSpacesNone(key);
    assert Ascii.Upper(key) == key;
  }

  /** `a` and `b` differ only in where spaces stand and in ASCII letter case. */
  predicate SameUpToSpacingAndCase(a: string, b: string)
  {
    var x := Ascii.DeleteSpaces(a);
    var y := Ascii.DeleteSpaces(b);
    |x| == |y| && forall i :: 0 <= i < |x| ==> Ascii.SameIgnoringCase(x[i], y[i])
  }

  /** Two plates get the same key exactly when they differ only in spacing and case. */
  lemma PlateKeyEqualIff(a: string, b: string)
    ensures PlateKey(a) == PlateKey(b) <==> SameUpToSpacingAndCase(a, b)
  {
    var x := Ascii.DeleteSpaces(a);
    var y := Ascii.DeleteSpaces(b);
    if PlateKey(a) == PlateKey(b) {
      forall i | 0 <= i < |x|
        ensures Ascii.SameIgnoringCase(x[i], y[i])
      {
        assert Ascii.Upper(x)[i] == Ascii.Upper(y)[i];
        Ascii.UpperCharEqualIff(x[i], y[i]);
      }
    }
    if SameUpToSpacingAndCase(a, b) {
      forall i | 0 <= i < |x|
        ensures Ascii.Upper(x)[i] == Ascii.Upper(y)[i]
      {
        Ascii.UpperCharEqualIff(x[i], y[i]);
      }
    }
  }

  predicate Matches(car: Car, key: string)
  {
    PlateKey(car.plate) == key
  }

  /** Position `i` holds the first car, in list order, whose plate key is `key`. */
  predicate IsFirstMatch(cars: seq<Car>, key: string, i: nat)
  {
    i < |cars| && Matches(cars[i], key) && forall j :: 0 <= j < i ==> !Matches(cars[j], key)
  }

  predicate NoMatch(cars: seq<Car>, key: string)
  {
    forall j :: 0 <= j < |cars| ==> !Matches(cars[j], key)
  }

  /** The position of the first car at or after `from` whose plate key is `key`. */
  function FirstMatch(cars: seq<Car>, key: string, from: nat): (r: Option<nat>)
    requires from <= |cars|
    requires forall j :: 0 <= j < from ==> !Matches(cars[j], key)
    ensures r.Some? ==> IsFirstMatch(cars, key, r.value)
    ensures r.None? <==> NoMatch(cars, key)
    decreases |cars| - from
  {
    if from == |cars| then None
    else if Matches(cars[from], key) then Some(from)
    else FirstMatch(cars, key, from + 1)
  }

  /** The fixed words around the two numbers of the summary line. */
  const AgeLabel: string := "Age: "
  const MonthsLabel: string := " years, Months without Servicing: "

  /** The summary line: age and months, printed in decimal. */
  function Summary(car: Car): string
  {
    AgeLabel + Decimal.NatToString(car.age) + MonthsLabel + Decimal.NatToString(car.months)
  }

  /** The details text for a matched car, built the way the source builds it:
      the summary, then the warning, then the reminder. */
  function Details(car: Car): string
  {
    var details := Summary(car);
    var details := if car.age > MaxAge then details + "\n" + OldCarLine else details;
    if car.months > MaxMonthsWithoutService then details + "\n" + ServiceLine else details
  }

  /** `find_car_details(query)` over the loaded rows: the details of the first
      row whose plate key equals the query's, or the not-found text. */
  function FindCarDetails(cars: seq<Car>, query: string): (r: string)
    ensures NoMatch(cars, PlateKey(query)) ==> r == NotFoundMessage
    ensures forall i: nat :: IsFirstMatch(cars, PlateKey(query), i) ==> r == Details(cars[i])
  {
    var key := PlateKey(query);
    var found := FirstMatch(cars, key, 0);
    if found.Some? then
      assert forall i: nat :: IsFirstMatch(cars, key, i) ==> i == found.value;
      Details(cars[found.value])
    else NotFoundMessage
  }

  /** Queries that differ only in spacing and letter case get the same answer. */
  lemma LookupIgnoresSpacingAndCase(cars: seq<Car>, a: string, b: string)
    requires SameUpToSpacingAndCase(a, b)
    ensures FindCarDetails(cars, a) == FindCarDetails(cars, b)
  {
    PlateKeyEqualIff(a, b);
  }

  lemma AdvisoryLinesHaveNoNewline()
    ensures NoNewline(OldCarLine) && NoNewline(ServiceLine)
  {
  }

  /** A query that matches row `i` up to spacing and case, where no earlier
      row has the same key, gets row `i`'s details. */
  lemma LookupFindsRow(cars: seq<Car>, i: nat, query: string)
    requires i < |cars|
    requires SameUpToSpacingAndCase(query, cars[i].plate)
    requires forall j :: 0 <= j < i ==> PlateKey(cars[j].plate) != PlateKey(cars[i].plate)
    ensures FindCarDetails(cars, query) == Details(cars[i])
  {
    PlateKeyEqualIff(query, cars[i].plate);
    assert IsFirstMatch(cars, PlateKey(query), i);
  }

  /** The lines of the details text, as the label shows them. */
  lemma DetailsLines(car: Car)
    ensures SplitLines(Details(car)) ==
      [Summary(car)]
      + (if car.age > MaxAge then [OldCarLine] else [])
      + (if car.months > MaxMonthsWithoutService then [ServiceLine] else [])
  {
    var s := Summary(car);
    assert NoNewline(s) by {
      var a := Decimal.NatToString(car.age);
      var m := Decimal.NatToString(car.months);
      assert forall i :: 0 <= i < |a| ==> a[i] != '\n';
      assert forall i :: 0 <= i < |m| ==> m[i] != '\n';
    }
    AdvisoryLinesHaveNoNewline();
    var lines := [s]
      + (if car.age > MaxAge then [OldCarLine] else [])
      + (if car.months > MaxMonthsWithoutService then [ServiceLine] else []);
    if car.age > MaxAge && car.months > MaxMonthsWithoutService {
      assert lines == [s, OldCarLine, ServiceLine];
      assert JoinLines(lines[1..]) == OldCarLine + "\n" + ServiceLine;
    } else if car.age > MaxAge {
      assert lines == [s, OldCarLine];
      assert JoinLines(lines[1..]) == OldCarLine;
    } else if car.months > MaxMonthsWithoutService {
      assert lines == [s, ServiceLine];
      assert JoinLines(lines[1..]) == ServiceLine;
    } else {
      assert lines == [s];
    }
    assert Details(car) == JoinLines(lines);
    SplitJoin(lines);
  }

  /** The warning is shown exactly for cars older than ten years, the reminder
      exactly for cars unserviced for more than six months, and when both are
      shown the warning comes first. */
  lemma AdvisoryRules(car: Car)
    ensures SplitLines(Details(car))[0] == Summary(car)
    ensures OldCarLine in SplitLines(Details(car)) <==> car.age > 10
    ensures ServiceLine in SplitLines(Details(car)) <==> car.months > 6
    ensures car.age > 10 && car.months > 6 ==>
      SplitLines(Details(car)) == [Summary(car), OldCarLine, ServiceLine]
  {
    DetailsLines(car);
    var s := Summary(car);
    assert s[0] == 'A';
    assert OldCarLine[0] == 'W';
    assert s != OldCarLine && s != ServiceLine && OldCarLine != ServiceLine;
  }

  /** A match never yields the not-found text, so the two outcomes can be told apart. */
  lemma DetailsNotNotFound(car: Car)
    ensures Details(car) != NotFoundMessage
  {
    assert Details(car)[0] == 'A';
  }

  /** Reading the summary line back: whatever digit runs stand between its
      labels are the age and the months the thresholds were compared against. */
  lemma SummaryReadsBack(car: Car, age: string, months: string)
    requires Decimal.AllDigits(age) && Decimal.AllDigits(months)
    requires Summary(car) == AgeLabel + age + MonthsLabel + months
    ensures Decimal.ParseDigits(age) == car.age
    ensures Decimal.ParseDigits(months) == car.months
  {
    assert MonthsLabel[0] == ' ';
    LabelledDigitsReadBack(AgeLabel, MonthsLabel, Decimal.NatToString(car.age),
      Decimal.NatToString(car.months), age, months);
    Decimal.ParseNatToString(car.age);
    Decimal.ParseNatToString(car.months);
  }

  /** Two digit runs, each placed after a label where the second label starts
      with a non-digit, are determined by the whole text. */
  lemma LabelledDigitsReadBack(p: string, q: string, a: string, m: string, b: string, n: string)
    requires Decimal.AllDigits(a) && Decimal.AllDigits(b)
    requires |q| > 0 && !Decimal.IsDigit(q[0])
    requires p + a + q + m == p + b + q + n
    ensures a == b && m == n
  {
    assert p + a + q + m == p + (a + (q + m));
    assert p + b + q + n == p + (b + (q + n));
    CancelPrefix(p, a + (q + m), b + (q + n));
    DigitsBeforeLabel(a, q + m, b, q + n);
    CancelPrefix(q, m, n);
  }

  lemma CancelPrefix(p: string, u: string, v: string)
    requires p + u == p + v
    ensures u == v
  {
    assert u == (p + u)[|p|..];
    assert v == (p + v)[|p|..];
  }

  /** A run of digits followed by a text that starts with a non-digit is
      determined by the whole: both parts can be read back. */
  lemma DigitsBeforeLabel(a: string, x: string, b: string, y: string)
    requires Decimal.AllDigits(a) && Decimal.AllDigits(b)
    requires |x| > 0 && !Decimal.IsDigit(x[0])
    requires |y| > 0 && !Decimal.IsDigit(y[0])
    requires a + x == b + y
    ensures a == b && x == y
  {
    assert (a + x)[|a|] == x[0];
    assert (b + y)[|b|] == y[0];
    assert |a| == |b|;
    assert a == (a + x)[..|a|];
    assert b == (b + y)[..|b|];
    assert x == (a + x)[|a|..];
    assert y == (b + y)[|b|..];
  }

  /** The key of "`a` `b`" for two space-free words. */
  lemma PlateKeyOfTwoWords(a: string, b: string)
    requires ' ' !in a && ' ' !in b
    ensures PlateKey(a + " " + b) == Ascii.Upper(a + b)
  {
    Ascii.DeleteSpacesAppend(a + " ", b);
    Ascii.DeleteSpacesAppend(a, " ");
    Ascii.DeleteSpacesNone(a);
    Ascii.DeleteSpacesNone(b);
    assert Ascii.DeleteSpaces(" ") == "";
  }
}
