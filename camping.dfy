/** camping.py: the revenue of a camping site over a season. Each day the occupied lots of the four
    kinds are entered, subtracted from the remaining lots and priced; the day's prices add up to the
    season's total. The entries, read from the keyboard in the script, are a parameter. */
module Camping {

  const PriceTent: int := 25
  const PriceTentCar: int := 35
  const PriceCaravan: int := 70
  const PriceCamper: int := 55

  /** A count per kind of lot: tents without parking, tents with parking, caravans, campers. Entered
      numbers are Python ints, so nothing keeps them non-negative. */
  datatype Lots = Lots(tents: int, tentsWithCar: int, caravans: int, campers: int)

  function PriceOfTheDay(peopleInTent: int, peopleInTentCars: int, peopleInCaravan: int, peopleInCamper: int): (price: int)
  {
    peopleInTent * PriceTent + peopleInTentCars * PriceTentCar + peopleInCaravan * PriceCaravan + peopleInCamper * PriceCamper
  }

  /** The price of the day is additive and never negative for counts that are not. */
  lemma PriceOfTheDayLinear(a: Lots, b: Lots)
    ensures PriceOfTheDay(a.tents + b.tents, a.tentsWithCar + b.tentsWithCar, a.caravans + b.caravans, a.campers + b.campers) ==
            PriceOfTheDay(a.tents, a.tentsWithCar, a.caravans, a.campers) + PriceOfTheDay(b.tents, b.tentsWithCar, b.caravans, b.campers)
    ensures a.tents >= 0 && a.tentsWithCar >= 0 && a.caravans >= 0 && a.campers >= 0 ==>
            PriceOfTheDay(a.tents, a.tentsWithCar, a.caravans, a.campers) >= 0
  {
  }

  function Minus(a: Lots, b: Lots): Lots
  {
    Lots(a.tents - b.tents, a.tentsWithCar - b.tentsWithCar, a.caravans - b.caravans, a.campers - b.campers)
  }

  /** The lots still free after the given days: the initial counts less everything entered, with no lower bound. */
  function Remaining(initial: Lots, days: seq<Lots>): Lots
    decreases |days|
  {
    if |days| == 0 then initial else Minus(Remaining(initial, days[..|days| - 1]), days[|days| - 1])
  }

  /** Sum of the entered counts, kind by kind. */
  function Occupied(days: seq<Lots>): (total: Lots)
    decreases |days|
  {
    if |days| == 0 then Lots(0, 0, 0, 0)
    else
      var p := Occupied(days[..|days| - 1]);
      var d := days[|days| - 1];
      Lots(p.tents + d.tents, p.tentsWithCar + d.tentsWithCar, p.caravans + d.caravans, p.campers + d.campers)
  }

  /** The remaining counters are the initial counts less all the occupancy entered so far. */
  lemma {:induction false} RemainingIsInitialLessOccupied(initial: Lots, days: seq<Lots>)
    ensures Remaining(initial, days) == Minus(initial, Occupied(days))
    decreases |days|
  {
    if |days| > 0 {
      RemainingIsInitialLessOccupied(initial, days[..|days| - 1]);
    }
  }

  /** Entering more than is free drives a counter below zero; nothing stops it. */
  lemma CountersCanGoNegative()
    ensures Remaining(Lots(1, 0, 0, 0), [Lots(2, 0, 0, 0)]).tents == -1
  {
  }

  /** The price of day `day` (counted from 1): on a multiple of 7 the caravan count is the caravan lots
      remaining after that day's entry, otherwise the counts are the day's entries. */
  function DayPrice(day: nat, entry: Lots, remainingAfter: Lots): int
  {
    var caravans := if day % 7 == 0 then remainingAfter.caravans else entry.caravans;
    PriceOfTheDay(entry.tents, entry.tentsWithCar, caravans, entry.campers)
  }

  /** The price of each day of the season, in order. */
  function DailyPrices(initial: Lots, days: seq<Lots>): (prices: seq<int>)
    ensures |prices| == |days|
    decreases |days|
  {
    if |days| == 0 then []
    else
      var n := |days| - 1;
      DailyPrices(initial, days[..n]) + [DayPrice(n + 1, days[n], Remaining(initial, days))]
  }

  function Sum(s: seq<int>): int
    decreases |s|
  {
    if |s| == 0 then 0 else Sum(s[..|s| - 1]) + s[|s| - 1]
  }

  /** Day i of the season (from 0) is priced by its own entry, except for the caravans on every seventh day. */
  lemma {:induction false} DailyPricesAt(initial: Lots, days: seq<Lots>, i: nat)
    requires i < |days|
    ensures DailyPrices(initial, days)[i] ==
            PriceOfTheDay(days[i].tents, days[i].tentsWithCar,
                          if (i + 1) % 7 == 0 then Remaining(initial, days[..i + 1]).caravans else days[i].caravans,
                          days[i].campers)
    decreases |days|
  {
    var n := |days| - 1;
    if i < n {
      DailyPricesAt(initial, days[..n], i);
      assert days[..n][i] == days[i];
      assert days[..n][..i + 1] == days[..i + 1];
    } else {
      assert days[..i + 1] == days;
    }
  }

  /** Outside the seventh days the total is exactly the price of all the occupancy entered. */
  lemma {:induction false} TotalWithoutSeventhDays(initial: Lots, days: seq<Lots>)
    requires |days| < 7
    ensures Sum(DailyPrices(initial, days)) ==
            var o := Occupied(days);
            PriceOfTheDay(o.tents, o.tentsWithCar, o.caravans, o.campers)
    decreases |days|
  {
    if |days| > 0 {
      var n := |days| - 1;
      TotalWithoutSeventhDays(initial, days[..n]);
      assert DailyPrices(initial, days)[..n] == DailyPrices(initial, days[..n]);
      var o := Occupied(days[..n]);
      PriceOfTheDayLinear(o, days[n]);
      assert (n + 1) % 7 == n + 1;
    }
  }

  /** The day loop of camping.py, for days 1 to |days|. It returns the season's total, the daily prices
      it prints and the remaining counters. */
  method Season(initial: Lots, days: seq<Lots>) returns (totalSum: int, printed: seq<int>, remaining: Lots)
    ensures remaining == Remaining(initial, days)
    ensures printed == DailyPrices(initial, days)
    ensures totalSum == Sum(printed)
  {
    var tentWithoutParkingLots := initial.tents;
    var tentWithParkingLots := initial.tentsWithCar;
    var caravansLots := initial.caravans;
    var camperLots := initial.campers;
    totalSum := 0;
    printed := [];
    var currentDay := 1;
    while currentDay <= |days|
      invariant 1 <= currentDay <= |days| + 1
      invariant Lots(tentWithoutParkingLots, tentWithParkingLots, caravansLots, camperLots) == Remaining(initial, days[..currentDay - 1])
      invariant printed == DailyPrices(initial, days[..currentDay - 1])
      invariant totalSum == Sum(printed)
    {
      var entry := days[currentDay - 1];
      assert days[..currentDay][..currentDay - 1] == days[..currentDay - 1];
      var tentLotsToday := entry.tents;
      tentWithoutParkingLots := tentWithoutParkingLots - tentLotsToday;
      var tentLotsCarsToday := entry.tentsWithCar;
      tentWithParkingLots := tentWithParkingLots - tentLotsCarsToday;
      var caravansLotsToday := entry.caravans;
      caravansLots := caravansLots - caravansLotsToday;
      var campersLotsToday := entry.campers;
      camperLots := camperLots - campersLotsToday;
      if currentDay % 7 == 0 {
        caravansLotsToday := caravansLots;
      }
      var price := PriceOfTheDay(tentLotsToday, tentLotsCarsToday, caravansLotsToday, campersLotsToday);
      totalSum := totalSum + price;
      printed := printed + [price];
      assert printed[..|printed| - 1] == DailyPrices(initial, days[..currentDay - 1]);
      currentDay := currentDay + 1;
    }
    assert days[..currentDay - 1] == days;
    remaining := Lots(tentWithoutParkingLots, tentWithParkingLots, caravansLots, camperLots);
  }
}
