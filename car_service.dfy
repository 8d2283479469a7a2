/**
 * The car catalogue the demo agent answers questions from: a fixed map from lower-case model
 * identifiers to car records, a case-insensitive lookup, a side-by-side comparison with a
 * "better value" recommendation, a price list filtered by car type and the list of models.
 *
 * A HashMap has no fixed order, so every operation that walks the catalogue takes the order in
 * which its key set is iterated as a parameter `order`; `ListsKeys(order)` says it is a
 * repetition-free enumeration of the keys. `values()` walks the entries in the same order.
 */
module CarService {
  import opened Text

  datatype CarInfo = CarInfo(name: string, carType: string, price: nat, range: nat, rating: string)

  const CarDatabase: map<string, CarInfo> := map[
    "tesla-model-3" := CarInfo("Tesla Model 3", "Electric", 45000, 358, "★★★★★"),
    "toyota-camry" := CarInfo("Toyota Camry", "Hybrid", 28000, 686, "★★★★☆"),
    "bmw-x5" := CarInfo("BMW X5", "Gas", 62000, 449, "★★★★★"),
    "honda-civic" := CarInfo("Honda Civic", "Gas", 24000, 714, "★★★★☆"),
    "ford-mustang" := CarInfo("Ford Mustang", "Gas", 55000, 500, "★★★★★")
  ]

  /** `order` enumerates the catalogue's keys, each exactly once. */
  predicate ListsKeys(order: seq<string>) {
    (forall k :: k in order ==> k in CarDatabase)
    && (forall k :: k in CarDatabase ==> k in order)
    && (forall i, j :: 0 <= i < j < |order| ==> order[i] != order[j])
  }

  predicate IsLowerCase(s: string) {
    forall i :: 0 <= i < |s| ==> !('A' <= s[i] <= 'Z')
  }

  lemma LowerOfLowerCase(s: string)
    requires IsLowerCase(s)
    ensures Lower(s) == s
  {
  }

  /** Every identifier in the catalogue is already lower-case. */
  lemma KeysAreLowerCase()
    ensures forall k :: k in CarDatabase ==> Lower(k) == k
  {
    forall k | k in CarDatabase
      ensures Lower(k) == k
    {
      assert IsLowerCase(k);
      LowerOfLowerCase(k);
    }
  }

  /** No two identifiers name the same car. */
  lemma CarsAreDistinct()
    ensures forall k1, k2 :: k1 in CarDatabase && k2 in CarDatabase && CarDatabase[k1] == CarDatabase[k2] ==> k1 == k2
  {
  }

  /** String.join(sep, xs). */
  function Join(sep: string, xs: seq<string>): string
    decreases |xs|
  {
    if |xs| == 0 then "" else if |xs| == 1 then xs[0] else xs[0] + sep + Join(sep, xs[1..])
  }

  lemma ContainsItself(s: string)
    ensures Contains(s, s)
  {
    assert s[0..|s|] == s;
    assert OccursAt(s, s, 0);
  }

  lemma {:induction false} JoinContainsEach(sep: string, xs: seq<string>, i: nat)
    requires i < |xs|
    ensures Contains(Join(sep, xs), xs[i])
    decreases |xs|
  {
    if |xs| == 1 {
      assert Join(sep, xs) == xs[0];
      ContainsItself(xs[0]);
    } else {
      var rest := Join(sep, xs[1..]);
      if i == 0 {
        assert Join(sep, xs) == xs[0] + (sep + rest);
        ContainsItself(xs[0]);
        ContainsInConcat(xs[0], sep + rest, xs[0]);
      } else {
        assert Join(sep, xs) == (xs[0] + sep) + rest;
        JoinContainsEach(sep, xs[1..], i - 1);
        assert xs[1..][i - 1] == xs[i];
        ContainsInConcat(xs[0] + sep, rest, xs[i]);
      }
    }
  }

  /** A list of the catalogue's keys names every model in it. */
  lemma KeyListNamesEveryModel(sep: string, order: seq<string>)
    requires ListsKeys(order)
    ensures forall k :: k in CarDatabase ==> Contains(Join(sep, order), k)
  {
    forall k | k in CarDatabase
      ensures Contains(Join(sep, order), k)
    {
      var i :| 0 <= i < |order| && order[i] == k;
      JoinContainsEach(sep, order, i);
    }
  }

  // ---------------------------------------------------------------------------------------
  // getCarInfo

  /** What getCarInfo answers: the car's details, or the list of known models. */
  datatype InfoReply = CarDetails(car: CarInfo) | UnknownModel(message: string)

  function UnknownModelMessage(order: seq<string>): string {
    "Car model not found. Available models: " + Join(", ", order)
  }

  /** The lookup lower-cases its argument; an unknown model gets the list of identifiers. */
  function GetCarInfo(carModel: string, order: seq<string>): (r: InfoReply)
    ensures r.CarDetails? <==> Lower(carModel) in CarDatabase
    ensures r.CarDetails? ==> r.car == CarDatabase[Lower(carModel)]
    ensures r.UnknownModel? ==> r.message == UnknownModelMessage(order)
  {
    var key := Lower(carModel);
    if key in CarDatabase then CarDetails(CarDatabase[key]) else UnknownModel(UnknownModelMessage(order))
  }

  /** The lookup ignores letter case: spellings that differ only in case get the same reply. */
  lemma GetCarInfoIgnoresCase(a: string, b: string, order: seq<string>)
    requires EqualsIgnoreCase(a, b)
    ensures GetCarInfo(a, order) == GetCarInfo(b, order)
  {
  }

  /** Every catalogue entry is found under its identifier, whatever its letter case. */
  lemma GetCarInfoFindsEveryModel(carModel: string, order: seq<string>)
    requires Lower(carModel) in CarDatabase
    ensures GetCarInfo(carModel, order) == CarDetails(CarDatabase[Lower(carModel)])
    ensures GetCarInfo(Lower(carModel), order) == GetCarInfo(carModel, order)
  {
    KeysAreLowerCase();
  }

  /** The reply to an unknown model names every model the catalogue has. */
  lemma UnknownModelMessageNamesEveryModel(order: seq<string>)
    requires ListsKeys(order)
    ensures forall k :: k in CarDatabase ==> Contains(UnknownModelMessage(order), k)
  {
    KeyListNamesEveryModel(", ", order);
    forall k | k in CarDatabase
      ensures Contains(UnknownModelMessage(order), k)
    {
      ContainsInConcat("Car model not found. Available models: ", Join(", ", order), k);
    }
  }

  // ---------------------------------------------------------------------------------------
  // compareCars

  datatype Recommendation = BetterValue(car: CarInfo) | BothGreat

  /** The recommendation line: the strictly cheaper car when both have the same rating. */
  function Recommend(first: CarInfo, second: CarInfo): (r: Recommendation)
    ensures r.BetterValue? <==> first.rating == second.rating && first.price != second.price
    ensures r.BetterValue? ==> (r.car == first || r.car == second)
    ensures r.BetterValue? ==> r.car.price < first.price || r.car.price < second.price
  {
    if first.price < second.price && first.rating == second.rating then BetterValue(first)
    else if second.price < first.price && first.rating == second.rating then BetterValue(second)
    else BothGreat
  }

  function RecommendationText(r: Recommendation): string {
    match r
    case BetterValue(car) => car.name + " offers better value!"
    case BothGreat => "Both are great choices depending on your priorities!"
  }

  /** The order of the two cars does not change the recommendation. */
  lemma RecommendIsSymmetric(a: CarInfo, b: CarInfo)
    ensures Recommend(a, b) == Recommend(b, a)
  {
  }

  /** A car compared with itself, or two cars rated differently, are "both great". */
  lemma RecommendBothGreat(a: CarInfo, b: CarInfo)
    ensures Recommend(a, a) == BothGreat
    ensures a.rating != b.rating ==> Recommend(a, b) == BothGreat
  {
  }

  /** What compareCars answers: both cars and the recommendation, or the list of known models. */
  datatype ComparisonReply = Comparison(first: CarInfo, second: CarInfo, recommendation: Recommendation)
                           | UnknownModels(message: string)

  function UnknownModelsMessage(order: seq<string>): string {
    "One or both car models not found. Available: " + Join(", ", order)
  }

  function CompareCars(car1: string, car2: string, order: seq<string>): (r: ComparisonReply)
    ensures r.Comparison? <==> Lower(car1) in CarDatabase && Lower(car2) in CarDatabase
    ensures r.Comparison? ==> r.first == CarDatabase[Lower(car1)] && r.second == CarDatabase[Lower(car2)]
    ensures r.Comparison? ==> r.recommendation == Recommend(r.first, r.second)
    ensures r.UnknownModels? ==> r.message == UnknownModelsMessage(order)
  {
    var key1 := Lower(car1);
    var key2 := Lower(car2);
    if key1 !in CarDatabase || key2 !in CarDatabase then UnknownModels(UnknownModelsMessage(order))
    else
      var first := CarDatabase[key1];
      var second := CarDatabase[key2];
      Comparison(first, second, Recommend(first, second))
  }

  /** Swapping the two models swaps the cars and keeps the recommendation. */
  lemma CompareCarsSwapped(car1: string, car2: string, order: seq<string>)
    ensures var r := CompareCars(car1, car2, order);
            var s := CompareCars(car2, car1, order);
            r.Comparison? <==> s.Comparison?
    ensures var r := CompareCars(car1, car2, order);
            var s := CompareCars(car2, car1, order);
            r.Comparison? ==> s.first == r.second && s.second == r.first && s.recommendation == r.recommendation
  {
    var r := CompareCars(car1, car2, order);
    if r.Comparison? {
      RecommendIsSymmetric(r.first, r.second);
    }
  }

  // ---------------------------------------------------------------------------------------
  // getCarPricing

  /** `%-20s`: the text, padded with spaces on the right to at least `width` characters. */
  function PadRight(s: string, width: nat): (r: string)
    ensures |r| == if |s| < width then width else |s|
    ensures r[..|s|] == s
    ensures forall i :: |s| <= i < |r| ==> r[i] == ' '
  {
    if |s| < width then s + seq(width - |s|, _ => ' ') else s
  }

  /** Three decimal digits, with leading zeros. */
  function ThreeDigits(m: nat): string
    requires m < 1000
  {
    [DigitChar(m / 100), DigitChar(m / 10 % 10), DigitChar(m % 10)]
  }

  /** `%,d` for a non-negative number: decimal digits in groups of three, separated by commas. */
  function Grouped(n: nat): string {
    if n < 1000 then NatToString(n) else Grouped(n / 1000) + "," + ThreeDigits(n % 1000)
  }

  function RemoveCommas(s: string): string {
    if |s| == 0 then "" else RemoveCommas(s[..|s| - 1]) + (if s[|s| - 1] == ',' then "" else [s[|s| - 1]])
  }

  lemma {:induction false} RemoveCommasConcat(a: string, b: string)
    ensures RemoveCommas(a + b) == RemoveCommas(a) + RemoveCommas(b)
    decreases |b|
  {
    if |b| == 0 {
      assert a + b == a;
    } else {
      var b' := b[..|b| - 1];
      assert (a + b)[..|a + b| - 1] == a + b';
      RemoveCommasConcat(a, b');
    }
  }

  lemma {:induction false} RemoveCommasOfDigits(s: string)
    requires AllDigits(s)
    ensures RemoveCommas(s) == s
    decreases |s|
  {
    if |s| > 0 {
      RemoveCommasOfDigits(s[..|s| - 1]);
    }
  }

  /** The last three digits of a number of four or more digits are those of its remainder by 1000. */
  lemma NatToStringSplitsThousands(n: nat)
    requires n >= 1000
    ensures NatToString(n) == NatToString(n / 1000) + ThreeDigits(n % 1000)
  {
    var q, m := n / 1000, n % 1000;
    assert n / 10 == 100 * q + m / 10;
    assert n / 100 == 10 * q + m / 100;
    assert n / 10 / 10 == n / 100;
    assert n / 100 / 10 == q;
    assert n % 10 == m % 10;
    assert n / 10 % 10 == m / 10 % 10;
    assert n / 100 % 10 == m / 100;
    calc {
      NatToString(n);
      NatToString(n / 10) + [DigitChar(n % 10)];
      NatToString(n / 100) + [DigitChar(n / 10 % 10)] + [DigitChar(n % 10)];
      NatToString(q) + [DigitChar(n / 100 % 10)] + [DigitChar(n / 10 % 10)] + [DigitChar(n % 10)];
      NatToString(q) + ThreeDigits(m);
    }
  }

  /** The thousands separators are the only thing `%,d` adds to the plain decimal digits. */
  lemma {:induction false} GroupedIsDigitsWithCommas(n: nat)
    ensures RemoveCommas(Grouped(n)) == NatToString(n)
    decreases n
  {
    if n < 1000 {
      RemoveCommasOfDigits(NatToString(n));
    } else {
      var q, m := n / 1000, n % 1000;
      calc {
        RemoveCommas(Grouped(n));
        RemoveCommas(Grouped(q) + "," + ThreeDigits(m));
        { RemoveCommasConcat(Grouped(q) + ",", ThreeDigits(m)); }
        RemoveCommas(Grouped(q) + ",") + RemoveCommas(ThreeDigits(m));
        { RemoveCommasConcat(Grouped(q), ","); RemoveCommasOfDigits(ThreeDigits(m)); }
        RemoveCommas(Grouped(q)) + RemoveCommas(",") + ThreeDigits(m);
        { assert RemoveCommas(",") == ""; GroupedIsDigitsWithCommas(q); }
        NatToString(q) + ThreeDigits(m);
        { NatToStringSplitsThousands(n); }
        NatToString(n);
      }
    }
  }

  /** One line of the price list: `%-20s: $%,d` and a newline. */
  function PriceLine(car: CarInfo): string {
    PadRight(car.name, 20) + ": $" + Grouped(car.price) + "\n"
  }

  function PriceLines(cars: seq<CarInfo>): string {
    if |cars| == 0 then "" else PriceLines(cars[..|cars| - 1]) + PriceLine(cars[|cars| - 1])
  }

  function PricingHeader(carType: string): string {
    "💰 Pricing for " + carType + " cars:\n\n"
  }

  /** The reply the emptiness test after the listing would give. */
  function NoCarsMessage(carType: string): string {
    "No cars found for type: " + carType
  }

  /** No element occurs twice. */
  predicate Distinct<T(==)>(xs: seq<T>) {
    forall i, j :: 0 <= i < j < |xs| ==> xs[i] != xs[j]
  }

  /** `values()`: the cars, in the order the keys are iterated. */
  function ValuesInOrder(order: seq<string>): (cars: seq<CarInfo>)
    requires forall n :: 0 <= n < |order| ==> order[n] in CarDatabase
    ensures |cars| == |order|
    ensures forall n :: 0 <= n < |order| ==> cars[n] == CarDatabase[order[n]]
  {
    seq(|order|, n requires 0 <= n < |order| => CarDatabase[order[n]])
  }

  /** Walking every key once meets every car of the catalogue once. */
  lemma ValuesInOrderAreTheCatalogue(order: seq<string>)
    requires ListsKeys(order)
    ensures forall c :: c in ValuesInOrder(order) <==> c in CarDatabase.Values
    ensures Distinct(ValuesInOrder(order))
  {
    var cars := ValuesInOrder(order);
    forall c | c in CarDatabase.Values
      ensures c in cars
    {
      var k :| k in CarDatabase && CarDatabase[k] == c;
      var n :| 0 <= n < |order| && order[n] == k;
      assert cars[n] == c;
    }
    CarsAreDistinct();
  }

  /** The stream filter on `type.equalsIgnoreCase(carType)`, keeping the order. */
  function OfType(cars: seq<CarInfo>, carType: string): seq<CarInfo> {
    if |cars| == 0 then []
    else
      var car := cars[|cars| - 1];
      OfType(cars[..|cars| - 1], carType) + (if EqualsIgnoreCase(car.carType, carType) then [car] else [])
  }

  /** A car passes the filter exactly when it is among the cars and its type matches. */
  lemma {:induction false} OfTypeIsFilter(cars: seq<CarInfo>, carType: string, c: CarInfo)
    ensures c in OfType(cars, carType) <==> c in cars && EqualsIgnoreCase(c.carType, carType)
    decreases |cars|
  {
    if |cars| > 0 {
      var init := cars[..|cars| - 1];
      assert cars == init + [cars[|cars| - 1]];
      OfTypeIsFilter(init, carType, c);
    }
  }

  /** Filtering cars that are all different gives cars that are all different. */
  lemma {:induction false} OfTypeHasNoRepeats(cars: seq<CarInfo>, carType: string)
    requires Distinct(cars)
    ensures Distinct(OfType(cars, carType))
    decreases |cars|
  {
    if |cars| > 0 {
      var init := cars[..|cars| - 1];
      var car := cars[|cars| - 1];
      OfTypeHasNoRepeats(init, carType);
      var prev := OfType(init, carType);
      forall c | c in prev
        ensures c != car
      {
        OfTypeIsFilter(init, carType, c);
        var i :| 0 <= i < |init| && init[i] == c;
        assert cars[i] == c;
      }
      var kept := OfType(cars, carType);
      forall i, j | 0 <= i < j < |kept|
        ensures kept[i] != kept[j]
      {
        if j < |prev| {
          assert kept[i] == prev[i] && kept[j] == prev[j];
        } else {
          assert kept[j] == car && kept[i] == prev[i] && prev[i] in prev;
        }
      }
    }
  }

  /** Over the whole catalogue: exactly the cars of the asked type, each once. */
  lemma PricingListsExactlyMatchingCars(order: seq<string>, carType: string)
    requires ListsKeys(order)
    ensures forall c :: c in OfType(ValuesInOrder(order), carType) <==>
                        c in CarDatabase.Values && EqualsIgnoreCase(c.carType, carType)
    ensures Distinct(OfType(ValuesInOrder(order), carType))
  {
    var cars := ValuesInOrder(order);
    ValuesInOrderAreTheCatalogue(order);
    forall c
      ensures c in OfType(cars, carType) <==> c in CarDatabase.Values && EqualsIgnoreCase(c.carType, carType)
    {
      OfTypeIsFilter(cars, carType, c);
    }
    OfTypeHasNoRepeats(cars, carType);
  }

  lemma OfTypeStep(cars: seq<CarInfo>, i: nat, carType: string)
    requires i < |cars|
    ensures EqualsIgnoreCase(cars[i].carType, carType) ==>
            OfType(cars[..i + 1], carType) == OfType(cars[..i], carType) + [cars[i]]
    ensures !EqualsIgnoreCase(cars[i].carType, carType) ==>
            OfType(cars[..i + 1], carType) == OfType(cars[..i], carType)
  {
    assert cars[..i + 1][..i] == cars[..i];
    assert OfType(cars[..i], carType) + [] == OfType(cars[..i], carType);
  }

  lemma PriceLinesSnoc(cars: seq<CarInfo>, car: CarInfo)
    ensures PriceLines(cars + [car]) == PriceLines(cars) + PriceLine(car)
  {
    assert (cars + [car])[..|cars|] == cars;
  }

  /** The loop of getCarPricing: appends one price line for each car of the asked type, in order. */
  method AppendPriceLines(prefix: string, cars: seq<CarInfo>, carType: string) returns (result: string)
    ensures result == prefix + PriceLines(OfType(cars, carType))
  {
    result := prefix;
    var i := 0;
    while i < |cars|
      invariant i <= |cars|
      invariant result == prefix + PriceLines(OfType(cars[..i], carType))
    {
      var car := cars[i];
      OfTypeStep(cars, i, carType);
      if EqualsIgnoreCase(car.carType, carType) {
        PriceLinesSnoc(OfType(cars[..i], carType), car);
        result := result + PriceLine(car);
      }
      i := i + 1;
    }
    assert cars[..|cars|] == cars;
  }

  /**
   * getCarPricing over `carDatabase.values()`, walked in the key order `order`: the header, then one
   * line per car of the asked type, every such car of the catalogue exactly once. The emptiness test
   * that follows in the source looks at a buffer the header has already gone into, so the
   * "No cars found" reply never comes back.
   */
  method GetCarPricing(carType: string, order: seq<string>) returns (result: string)
    requires ListsKeys(order)
    ensures result == PricingHeader(carType) + PriceLines(OfType(ValuesInOrder(order), carType))
    ensures forall c :: c in OfType(ValuesInOrder(order), carType) <==>
                        c in CarDatabase.Values && EqualsIgnoreCase(c.carType, carType)
    ensures StartsWith(result, PricingHeader(carType))
    ensures result != NoCarsMessage(carType)
  {
    var header := PricingHeader(carType);
    result := AppendPriceLines(header, ValuesInOrder(order), carType);
    assert result[..|header|] == header;
    assert result[0] == header[0] == '💰';
    PricingListsExactlyMatchingCars(order, carType);
  }

  // ---------------------------------------------------------------------------------------
  // listCarTypes

  function ListCarTypes(order: seq<string>): string {
    "Available car models:\n" + Join("\n", order) + "\n\nUse getCarInfo(carModel) to get details about any model."
  }

  /** The model list names every identifier the lookup accepts. */
  lemma ListCarTypesNamesEveryModel(order: seq<string>)
    requires ListsKeys(order)
    ensures forall k :: k in CarDatabase ==> Contains(ListCarTypes(order), k)
  {
    KeyListNamesEveryModel("\n", order);
    var tail := "\n\nUse getCarInfo(carModel) to get details about any model.";
    forall k | k in CarDatabase
      ensures Contains(ListCarTypes(order), k)
    {
      ContainsInConcat("Available car models:\n", Join("\n", order), k);
      ContainsInConcat("Available car models:\n" + Join("\n", order), tail, k);
    }
  }
}
