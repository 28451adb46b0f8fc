/** The lighting-requirement calculator: room lux table, floor area, lumens,
    a ceiling-height multiplier, bulb count and cost figures, in exact real
    arithmetic. */
module LightingCalculator {
  import opened Optional

  datatype RoomType = RoomType(id: string, name: string, luxRequired: nat)

  datatype BulbOption = BulbOption(watts: nat, lumens: nat, name: string)

  const RoomTypes: seq<RoomType> := [
    RoomType("bedroom", "Bedroom", 150),
    RoomType("living", "Living Room", 200),
    RoomType("kitchen", "Kitchen", 300),
    RoomType("bathroom", "Bathroom", 250),
    RoomType("office", "Office/Study", 350),
    RoomType("garage", "Garage/Storage", 200)
  ]

  const WattageOptions: seq<BulbOption> := [
    BulbOption(7, 630, "7W LED"),
    BulbOption(9, 810, "9W LED"),
    BulbOption(12, 1080, "12W LED"),
    BulbOption(15, 1350, "15W LED"),
    BulbOption(18, 1620, "18W LED"),
    BulbOption(22, 1980, "22W LED")
  ]

  /** Square feet to square metres. */
  const SqFtToSqM: real := 929.0 / 10000.0
  /** The incandescent bulb each LED is compared against. */
  const IncandescentWatts: nat := 60
  /** 6 hours a day for 30 days. */
  const MonthlyHours: nat := 6 * 30
  /** Electricity price per kWh. */
  const RatePerKWh: real := 8.0

  /** A length or width field: the empty input, or a parsed number of feet. */
  datatype Dimension = Blank | Entered(feet: real)

  /** The memo's result for a room: its floor area, the lumens it needs and
      the chosen bulb. Every figure shown is a member computed from these. */
  datatype Calculation = Calculation(areaInSqFt: real, adjustedLumens: real, bulb: BulbOption) {

    /** `totalLumensNeeded`. */
    function TotalLumensNeeded(): int {
      Round(adjustedLumens)
    }

    /** `bulbsNeeded`. */
    function BulbsNeeded(): int
      requires bulb.lumens > 0
    {
      BulbsFor(adjustedLumens, bulb.lumens)
    }

    /** `energySaved`; `None` where the source computes NaN (no bulbs, 0/0). */
    function EnergySaved(): Option<int>
      requires bulb.lumens > 0
    {
      EnergySavedFor(BulbsNeeded(), bulb.watts)
    }

    /** `monthlyCostLED`. */
    function MonthlyCostLED(): int
      requires bulb.lumens > 0
    {
      Round(MonthlyCost(BulbsNeeded() * bulb.watts))
    }

    /** `monthlySavings`. */
    function MonthlySavings(): int
      requires bulb.lumens > 0
    {
      Round(UnroundedSavings(BulbsNeeded(), bulb.watts))
    }

    /** `yearlySavings`: twelve times the unrounded monthly saving, rounded. */
    function YearlySavings(): int
      requires bulb.lumens > 0
    {
      Round(UnroundedSavings(BulbsNeeded(), bulb.watts) * 12.0)
    }
  }

  /** `Math.round`: rounds half-way cases towards +infinity. */
  function Round(x: real): (n: int)
    ensures x - 0.5 < n as real <= x + 0.5
  {
    (x + 0.5).Floor
  }

  /** `Math.ceil`: the least integer not below `x`. */
  function Ceil(x: real): (n: int)
    ensures x <= n as real < x + 1.0
  {
    -((-x).Floor)
  }

  /** `roomTypes.find(r => r.id === id)`. */
  function FindRoom(id: string): (r: Option<RoomType>)
    ensures r.Some? <==> exists i :: 0 <= i < |RoomTypes| && RoomTypes[i].id == id
    ensures r.Some? ==> r.value.id == id && r.value.luxRequired > 0
  {
    FindRoomIn(RoomTypes, id)
  }

  function FindRoomIn(rooms: seq<RoomType>, id: string): (r: Option<RoomType>)
    ensures r.Some? <==> exists i :: 0 <= i < |rooms| && rooms[i].id == id
    ensures r.Some? ==> r.value in rooms && r.value.id == id
  {
    if rooms == [] then None
    else if rooms[0].id == id then Some(rooms[0])
    else
      var r := FindRoomIn(rooms[1..], id);
      assert forall i :: 1 <= i < |rooms| ==> rooms[i] == rooms[1..][i - 1];
      r
  }

  /** The ceiling-height multiplier as written: `> 10` is checked before
      `> 12`, so the 1.4 tier is never reached. */
  function HeightMultiplier(heightFeet: int): (m: real)
    ensures m == 1.2 <==> heightFeet > 10
    ensures m == 1.0 <==> heightFeet <= 10
    ensures m != 1.4
  {
    if heightFeet > 10 then 1.2 else if heightFeet > 12 then 1.4 else 1.0
  }

  /** Lumens the room needs before rounding: floor area in square metres
      times the room's lux, times the height multiplier. */
  function AdjustedLumens(lengthFeet: real, widthFeet: real, lux: nat, heightFeet: int): real {
    lengthFeet * widthFeet * SqFtToSqM * (lux as real) * HeightMultiplier(heightFeet)
  }

  /** `Math.ceil(adjusted / lumens)`: the least number of bulbs whose total
      output reaches `need`. */
  function BulbsFor(need: real, lumens: nat): (n: int)
    requires lumens > 0
    ensures (n as real) * (lumens as real) >= need
    ensures ((n - 1) as real) * (lumens as real) < need
    ensures need > 0.0 ==> n >= 1
  {
    var l := lumens as real;
    var n := Ceil(need / l);
    DivMulCancel(need, l);
    MulLe(need / l, n as real, l);
    assert (n - 1) as real < need / l;
    MulLt((n - 1) as real, need / l, l);
    assert ((n - 1) as real) * l < need;
    n
  }

  /** Energy saved against 60 W incandescents, in per cent; `None` (NaN)
      when no bulbs are counted. It depends on the bulb's wattage only. */
  function EnergySavedFor(bulbs: int, watts: nat): (r: Option<int>)
    ensures r.None? <==> bulbs == 0
    ensures r.Some? ==> r.value == Round(((60 - watts) as real / 60.0) * 100.0)
  {
    var incandescent := bulbs * IncandescentWatts;
    var led := bulbs * watts;
    if incandescent == 0 then None
    else
      var ratio := (incandescent - led) as real / incandescent as real;
      assert ratio == (60 - watts) as real / 60.0 by {
        assert (incandescent - led) as real == (bulbs as real) * ((60 - watts) as real);
        assert incandescent as real == (bulbs as real) * 60.0;
      }
      Some(Round(ratio * 100.0))
  }

  /** Monthly cost, before rounding, of running `watts` watts. */
  function MonthlyCost(watts: int): real {
    (watts as real) * (MonthlyHours as real) / 1000.0 * RatePerKWh
  }

  /** Monthly saving before rounding: bulbs x (60 - watts) x 1.44. */
  function UnroundedSavings(bulbs: int, watts: nat): (r: real)
    ensures r == (bulbs as real) * ((60 - watts) as real) * 1.44
  {
    MonthlyCost(bulbs * IncandescentWatts) - MonthlyCost(bulbs * watts)
  }

  /** The `calculations` memo: no result until a room, a length and a width
      have been entered and the room is in the table. */
  function Calculate(roomId: string, length: Dimension, width: Dimension, heightFeet: int,
                     bulb: BulbOption): (r: Option<Calculation>)
    requires bulb.lumens > 0
    ensures r.Some? <==> roomId != "" && length.Entered? && width.Entered? && FindRoom(roomId).Some?
    ensures r.Some? ==> r.value.areaInSqFt == length.feet * width.feet && r.value.bulb == bulb
    ensures r.Some? ==>
      r.value.adjustedLumens == AdjustedLumens(length.feet, width.feet, FindRoom(roomId).value.luxRequired, heightFeet)
  {
    if roomId == "" || length.Blank? || width.Blank? then None
    else
      match FindRoom(roomId)
      case None => None
      case Some(room) =>
        Some(Calculation(length.feet * width.feet,
                         AdjustedLumens(length.feet, width.feet, room.luxRequired, heightFeet), bulb))
  }

  // ------------------------------------------------------------ properties

  /** Every bulb option gives 90 lumens per watt and draws less than the
      60 W incandescent it replaces. */
  lemma BulbTableFacts()
    ensures forall o :: o in WattageOptions ==> o.lumens == 90 * o.watts && o.watts < IncandescentWatts
    ensures forall o :: o in WattageOptions ==> o.lumens > 0
  {
  }

  lemma DivMulCancel(x: real, l: real)
    requires l > 0.0
    ensures (x / l) * l == x
  {
  }

  lemma MulLe(x: real, y: real, c: real)
    requires x <= y && c >= 0.0
    ensures x * c <= y * c
  {
  }

  lemma MulLt(x: real, y: real, c: real)
    requires x < y && c > 0.0
    ensures x * c < y * c
  {
  }

  lemma DivMonotone(x: real, y: real, l: real)
    requires x <= y && l > 0.0
    ensures x / l <= y / l
  {
  }

  lemma MulPos(x: real, y: real)
    requires x > 0.0 && y > 0.0
    ensures x * y > 0.0
  {
  }

  lemma CeilMonotone(x: real, y: real)
    requires x <= y
    ensures Ceil(x) <= Ceil(y)
  {
  }

  /** Positive dimensions in a listed room need a positive amount of light. */
  lemma AdjustedLumensPositive(lengthFeet: real, widthFeet: real, lux: nat, heightFeet: int)
    requires lengthFeet > 0.0 && widthFeet > 0.0 && lux > 0
    ensures AdjustedLumens(lengthFeet, widthFeet, lux, heightFeet) > 0.0
  {
    var m := HeightMultiplier(heightFeet);
    MulPos(lengthFeet, widthFeet);
    var a := lengthFeet * widthFeet;
    MulPos(a, SqFtToSqM);
    var b := a * SqFtToSqM;
    MulPos(b, lux as real);
    var c := b * (lux as real);
    MulPos(c, m);
  }

  lemma AdjustedLumensMonotone(length1: real, length2: real, width1: real, width2: real,
                               lux1: nat, lux2: nat, heightFeet: int)
    requires 0.0 < length1 <= length2 && 0.0 < width1 <= width2 && lux1 <= lux2
    ensures AdjustedLumens(length1, width1, lux1, heightFeet) <= AdjustedLumens(length2, width2, lux2, heightFeet)
  {
    var m := HeightMultiplier(heightFeet);
    MulLe(length1, length2, width1);
    MulLe(width1, width2, length2);
    var a1 := length1 * width1;
    var a2 := length2 * width2;
    assert a1 <= length2 * width1;
    assert length2 * width1 == width1 * length2;
    assert width2 * length2 == a2;
    assert a1 <= a2;
    MulLe(a1, a2, SqFtToSqM);
    var b1 := a1 * SqFtToSqM;
    var b2 := a2 * SqFtToSqM;
    MulPos(length2, width2);
    MulPos(a2, SqFtToSqM);
    MulLe(b1, b2, lux1 as real);
    MulLe(lux1 as real, lux2 as real, b2);
    assert (lux1 as real) * b2 == b2 * (lux1 as real) && (lux2 as real) * b2 == b2 * (lux2 as real);
    var c1 := b1 * (lux1 as real);
    var c2 := b2 * (lux2 as real);
    MulLe(c1, c2, m);
  }

  /** The bulb count of any calculation is the least n whose n bulbs reach
      its lumens target. */
  lemma BulbsNeededIsLeastCover(c: Calculation)
    requires c.bulb.lumens > 0
    ensures (c.BulbsNeeded() as real) * (c.bulb.lumens as real) >= c.adjustedLumens
    ensures ((c.BulbsNeeded() - 1) as real) * (c.bulb.lumens as real) < c.adjustedLumens
    ensures c.adjustedLumens > 0.0 ==> c.BulbsNeeded() >= 1
  {
  }

  /** With positive dimensions and a known room the calculation exists, its
      target is the room's lux over the floor area scaled for the ceiling,
      and at least one bulb is needed. */
  lemma PositiveRoomNeedsBulbs(roomId: string, lengthFeet: real, widthFeet: real,
                               heightFeet: int, bulb: BulbOption)
    requires bulb.lumens > 0
    requires FindRoom(roomId).Some? && lengthFeet > 0.0 && widthFeet > 0.0
    ensures Calculate(roomId, Entered(lengthFeet), Entered(widthFeet), heightFeet, bulb).Some?
    ensures
      var c := Calculate(roomId, Entered(lengthFeet), Entered(widthFeet), heightFeet, bulb).value;
      && c.adjustedLumens == AdjustedLumens(lengthFeet, widthFeet, FindRoom(roomId).value.luxRequired, heightFeet)
      && c.adjustedLumens > 0.0
      && c.BulbsNeeded() >= 1
  {
    var lux := FindRoom(roomId).value.luxRequired;
    AdjustedLumensPositive(lengthFeet, widthFeet, lux, heightFeet);
    BulbsNeededIsLeastCover(Calculate(roomId, Entered(lengthFeet), Entered(widthFeet), heightFeet, bulb).value);
  }

  /** More floor (longer, wider) or a brighter room never needs fewer bulbs,
      everything else fixed. */
  lemma BulbsNeededMonotone(room1: string, room2: string, length1: real, length2: real,
                            width1: real, width2: real, heightFeet: int, bulb: BulbOption)
    requires bulb.lumens > 0
    requires FindRoom(room1).Some? && FindRoom(room2).Some?
    requires FindRoom(room1).value.luxRequired <= FindRoom(room2).value.luxRequired
    requires 0.0 < length1 <= length2 && 0.0 < width1 <= width2
    ensures Calculate(room1, Entered(length1), Entered(width1), heightFeet, bulb).value.BulbsNeeded()
         <= Calculate(room2, Entered(length2), Entered(width2), heightFeet, bulb).value.BulbsNeeded()
  {
    var l := bulb.lumens as real;
    var lux1 := FindRoom(room1).value.luxRequired;
    var lux2 := FindRoom(room2).value.luxRequired;
    var a1 := AdjustedLumens(length1, width1, lux1, heightFeet);
    var a2 := AdjustedLumens(length2, width2, lux2, heightFeet);
    AdjustedLumensMonotone(length1, length2, width1, width2, lux1, lux2, heightFeet);
    DivMonotone(a1, a2, l);
    CeilMonotone(a1 / l, a2 / l);
  }

  /** Whenever bulbs are counted, the energy saving depends on the chosen
      bulb alone: round((60 - watts) / 60 * 100) per cent. */
  lemma EnergySavedDependsOnlyOnBulb(c: Calculation)
    requires c.bulb.lumens > 0 && c.BulbsNeeded() != 0
    ensures c.EnergySaved() == Some(Round(((60 - c.bulb.watts) as real / 60.0) * 100.0))
  {
  }

  /** The 12 W default bulb saves 80 per cent. */
  lemma TwelveWattSavesEightyPercent()
    ensures Round(((60 - WattageOptions[2].watts) as real / 60.0) * 100.0) == 80
  {
  }

  /** Savings come from the unrounded monthly figure, bulbs x (60 - watts)
      x 1.44; the yearly figure rounds twelve times that figure. */
  lemma SavingsFormula(c: Calculation)
    requires c.bulb.lumens > 0
    ensures
      var monthly := (c.BulbsNeeded() as real) * ((60 - c.bulb.watts) as real) * 1.44;
      && c.MonthlySavings() == Round(monthly)
      && c.YearlySavings() == Round(12.0 * monthly)
      && c.MonthlyCostLED() == Round((c.BulbsNeeded() as real) * (c.bulb.watts as real) * 1.44)
  {
    var b := c.BulbsNeeded();
    assert MonthlyCost(b * c.bulb.watts) == (b as real) * (c.bulb.watts as real) * 1.44;
  }

  /** One 7 W bulb in a one-foot-square bedroom: monthly savings 76.32
      round to 76 while the yearly figure rounds 915.84 to 916, not 12 x 76. */
  lemma YearlySavingsIsNotTwelveRoundedMonths()
    ensures
      var c := Calculate("bedroom", Entered(1.0), Entered(1.0), 9, WattageOptions[0]).value;
      c.BulbsNeeded() == 1 && c.MonthlySavings() == 76 && c.YearlySavings() == 916
      && c.YearlySavings() != 12 * c.MonthlySavings()
  {
    assert FindRoom("bedroom") == Some(RoomTypes[0]);
    assert AdjustedLumens(1.0, 1.0, 150, 9) == 13.935;
    assert Ceil(13.935 / 630.0) == 1;
    assert UnroundedSavings(1, 7) == 76.32;
  }

  /** A 10 ft x 10 ft bedroom at 9 ft with the 12 W bulb: 1393.5 lumens,
      two bulbs, 80 per cent saved. */
  lemma BedroomExample()
    ensures
      var c := Calculate("bedroom", Entered(10.0), Entered(10.0), 9, WattageOptions[2]).value;
      c.areaInSqFt == 100.0 && c.TotalLumensNeeded() == 1394 && c.BulbsNeeded() == 2
      && c.EnergySaved() == Some(80)
  {
    assert FindRoom("bedroom") == Some(RoomTypes[0]);
    assert AdjustedLumens(10.0, 10.0, 150, 9) == 1393.5;
    assert Ceil(1393.5 / 1080.0) == 2;
  }

  /** The same bedroom under a 13 ft ceiling takes the 1.2 tier, not 1.4:
      1672.2 lumens, still two bulbs. */
  lemma HighCeilingExample()
    ensures
      var c := Calculate("bedroom", Entered(10.0), Entered(10.0), 13, WattageOptions[2]).value;
      c.TotalLumensNeeded() == 1672 && c.BulbsNeeded() == 2
  {
    assert FindRoom("bedroom") == Some(RoomTypes[0]);
    assert AdjustedLumens(10.0, 10.0, 150, 13) == 1672.2;
    assert Ceil(1672.2 / 1080.0) == 2;
  }

  // ------------------------------------------------------------ form state

  /** The calculator form: selected room id, the two dimension fields, the
      height slider, the chosen bulb and whether the results view is up. */
  datatype CalcState = CalcState(
    selectedRoom: string,
    length: Dimension,
    width: Dimension,
    heightFeet: int,
    selectedWattage: BulbOption,
    showResults: bool)

  predicate ValidState(st: CalcState) {
    st.selectedWattage.lumens > 0
  }

  function Results(st: CalcState): Option<Calculation>
    requires ValidState(st)
  {
    Calculate(st.selectedRoom, st.length, st.width, st.heightFeet, st.selectedWattage)
  }

  /** The results view is only ever shown over an existing calculation. */
  predicate ResultsBacked(st: CalcState)
    requires ValidState(st)
  {
    st.showResults ==> Results(st).Some?
  }

  /** `handleReset` (and the initial state): no room, blank dimensions, a
      9 ft ceiling, the 12 W bulb, form view. */
  function Reset(): (st: CalcState)
    ensures ValidState(st) && ResultsBacked(st)
    ensures st.selectedRoom == "" && st.length == Blank && st.width == Blank
    ensures st.heightFeet == 9 && !st.showResults
    ensures st.selectedWattage == WattageOptions[2]
    ensures st.selectedWattage.watts == 12 && st.selectedWattage.lumens == 1080
    ensures Results(st) == None
  {
    CalcState("", Blank, Blank, 9, WattageOptions[2], false)
  }

  /** `handleCalculate`: switches to the results view only when there is a
      calculation to show. */
  function HandleCalculate(st: CalcState): (r: CalcState)
    requires ValidState(st)
    ensures ValidState(r)
    ensures r.showResults <==> st.showResults || Results(st).Some?
    ensures r.(showResults := st.showResults) == st
    ensures ResultsBacked(st) ==> ResultsBacked(r)
  {
    if Results(st).Some? then st.(showResults := true) else st
  }

  /** `isFormValid`: a room is chosen and both dimensions are positive. */
  predicate IsFormValid(st: CalcState) {
    && st.selectedRoom != ""
    && st.length.Entered? && st.width.Entered?
    && st.length.feet > 0.0 && st.width.feet > 0.0
  }

  /** A valid form over a listed room always calculates, and shows at
      least one bulb. */
  lemma ValidFormCalculates(st: CalcState)
    requires ValidState(st) && IsFormValid(st) && FindRoom(st.selectedRoom).Some?
    ensures Results(st).Some? && Results(st).value.BulbsNeeded() >= 1
    ensures HandleCalculate(st).showResults
  {
    PositiveRoomNeedsBulbs(st.selectedRoom, st.length.feet, st.width.feet, st.heightFeet, st.selectedWattage);
  }
}
