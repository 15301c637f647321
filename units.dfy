/**
 * The unit converter: eight categories of units. Every unit of a factor category
 * is a multiple of the category's base unit (a value is multiplied into the base
 * unit and divided out into the target); temperatures go through Celsius instead.
 * A conversion shows the formatted result, a formula line and logs a history
 * record; a side table converts four common values of the source unit into every
 * other unit. str(float) and the :.Ne / :.Ng format specifications come from
 * outside and are parameters.
 */
module Units {
  import opened Options
  import opened Numerals
  import opened History

  /**
   * Python's float services the converter uses: str(x), the part of float() that is
   * not plain digits, and the exponent and general format specifications.
   */
  datatype Floats = Floats(
    str: real -> string,
    syntax: string -> Option<real>,
    exponent: (nat, real) -> string,
    general: (nat, real) -> string)

  /** A factor table: unit names in display order, each with its size in the base unit. */
  type Table = seq<(string, real)>

  /**
   * A category of unit_categories: a named table of factors, or Temperature, whose units
   * are converted by formula.
   */
  datatype Category = Factors(name: string, table: Table) | Temperature

  const Length := Factors("Length",
    [("Meter", 1.0), ("Kilometer", 1000.0), ("Centimeter", 0.01), ("Millimeter", 0.001),
     ("Inch", 0.0254), ("Foot", 0.3048), ("Yard", 0.9144), ("Mile", 1609.344)])

  const WeightMass := Factors("Weight/Mass",
    [("Kilogram", 1.0), ("Gram", 0.001), ("Milligram", 0.000001), ("Pound", 0.45359237),
     ("Ounce", 0.028349523125), ("Ton", 1000.0)])

  const Area := Factors("Area",
    [("Square Meter", 1.0), ("Square Kilometer", 1000000.0), ("Square Centimeter", 0.0001),
     ("Square Millimeter", 0.000001), ("Square Inch", 0.00064516), ("Square Foot", 0.09290304),
     ("Square Yard", 0.83612736), ("Acre", 4046.8564224), ("Hectare", 10000.0)])

  const Volume := Factors("Volume",
    [("Cubic Meter", 1.0), ("Cubic Centimeter", 0.000001), ("Liter", 0.001),
     ("Milliliter", 0.000001), ("Gallon (US)", 0.00378541), ("Quart (US)", 0.000946353),
     ("Pint (US)", 0.000473176), ("Cup (US)", 0.000236588), ("Fluid Ounce (US)", 0.0000295735),
     ("Cubic Inch", 0.0000163871), ("Cubic Foot", 0.0283168)])

  const Time := Factors("Time",
    [("Second", 1.0), ("Minute", 60.0), ("Hour", 3600.0), ("Day", 86400.0),
     ("Week", 604800.0), ("Month (30 days)", 2592000.0), ("Year (365 days)", 31536000.0)])

  const Speed := Factors("Speed",
    [("Meter per Second", 1.0), ("Kilometer per Hour", 0.277778), ("Mile per Hour", 0.44704),
     ("Knot", 0.514444), ("Foot per Second", 0.3048)])

  const Pressure := Factors("Pressure",
    [("Pascal", 1.0), ("Kilopascal", 1000.0), ("Bar", 100000.0), ("Atmosphere", 101325.0),
     ("mmHg", 133.322), ("PSI", 6894.76)])

  const TemperatureUnits: seq<string> := ["Celsius", "Fahrenheit", "Kelvin"]

  function Names(t: Table): (r: seq<string>)
    ensures |r| == |t|
  {
    if t == [] then [] else [t[0].0] + Names(t[1..])
  }

  /** The units a category offers, in the order the unit drop-downs list them. */
  function UnitNames(c: Category): seq<string>
  {
    if c.Temperature? then TemperatureUnits else Names(c.table)
  }

  /** The table's entry for a unit: the first one of that name. */
  function FactorOf(t: Table, u: string): real
    requires u in Names(t)
  {
    if t[0].0 == u then t[0].1 else FactorOf(t[1..], u)
  }

  predicate PositiveFactors(t: Table)
  {
    t == [] || (t[0].1 > 0.0 && PositiveFactors(t[1..]))
  }

  /**
   * What every category of the converter satisfies: at least one unit, the first two
   * different, and only positive factors, so that dividing by a target factor never raises.
   */
  predicate Valid(c: Category)
  {
    |UnitNames(c)| >= 1 && (|UnitNames(c)| >= 2 ==> UnitNames(c)[0] != UnitNames(c)[1]) &&
    (c.Factors? ==> PositiveFactors(c.table))
  }

  /** A factor category is valid once its factors are positive and its first two units differ. */
  lemma ValidTable(c: Category)
    requires c.Factors? && |c.table| >= 2 && c.table[0].0 != c.table[1].0 && PositiveFactors(c.table)
    ensures Valid(c)
  {
    var t := c.table;
    assert Names(t)[0] == t[0].0;
    assert Names(t)[1] == Names(t[1..])[0] == t[1].0;
  }

  // Every category of unit_categories is valid.
  lemma LengthValid()
    ensures Valid(Length)
  {
    LengthPositive();
    ValidTable(Length);
  }

  lemma LengthPositive()
    ensures PositiveFactors(Length.table)
  {
  }

  lemma WeightMassValid()
    ensures Valid(WeightMass)
  {
    WeightMassPositive();
    ValidTable(WeightMass);
  }

  lemma WeightMassPositive()
    ensures PositiveFactors(WeightMass.table)
  {
  }

  lemma AreaValid()
    ensures Valid(Area)
  {
    AreaPositive();
    ValidTable(Area);
  }

  lemma AreaPositive()
    ensures PositiveFactors(Area.table)
  {
  }

  lemma VolumeValid()
    ensures Valid(Volume)
  {
    VolumePositive();
    ValidTable(Volume);
  }

  lemma VolumePositive()
    ensures PositiveFactors(Volume.table)
  {
  }

  lemma TimeValid()
    ensures Valid(Time)
  {
    TimePositive();
    ValidTable(Time);
  }

  lemma TimePositive()
    ensures PositiveFactors(Time.table)
  {
  }

  lemma SpeedValid()
    ensures Valid(Speed)
  {
    SpeedPositive();
    ValidTable(Speed);
  }

  lemma SpeedPositive()
    ensures PositiveFactors(Speed.table)
  {
  }

  lemma PressureValid()
    ensures Valid(Pressure)
  {
    PressurePositive();
    ValidTable(Pressure);
  }

  lemma PressurePositive()
    ensures PositiveFactors(Pressure.table)
  {
  }

  lemma TemperatureValid()
    ensures Valid(Temperature)
  {
  }

  lemma {:induction false} FactorOfPositive(t: Table, u: string)
    requires PositiveFactors(t) && u in Names(t)
    ensures FactorOf(t, u) > 0.0
  {
    if t[0].0 != u {
      FactorOfPositive(t[1..], u);
    }
  }

  /** The size of a unit of a factor category, in the category's base unit. */
  function Factor(c: Category, u: string): (f: real)
    requires Valid(c) && c.Factors? && u in UnitNames(c)
    ensures f > 0.0
  {
    FactorOfPositive(c.table, u);
    FactorOf(c.table, u)
  }

  /** Both drop-downs hold units of the current category. */
  predicate Selected(c: Category, from: string, to: string)
  {
    Valid(c) && from in UnitNames(c) && to in UnitNames(c)
  }

  // ---------------------------------------------------------------- temperature

  /** The first half of convert_temperature: the value in degrees Celsius. */
  function ToCelsius(u: string, v: real): real
    requires u in TemperatureUnits
  {
    if u == "Celsius" then v
    else if u == "Fahrenheit" then (v - 32.0) * 5.0 / 9.0
    else v - 273.15
  }

  /** The second half of convert_temperature: degrees Celsius in the target unit. */
  function FromCelsius(u: string, c: real): real
    requires u in TemperatureUnits
  {
    if u == "Celsius" then c
    else if u == "Fahrenheit" then c * 9.0 / 5.0 + 32.0
    else c + 273.15
  }

  /** Each scale's two halves undo each other. */
  lemma CelsiusRoundTrip(u: string, v: real, c: real)
    requires u in TemperatureUnits
    ensures FromCelsius(u, ToCelsius(u, v)) == v
    ensures ToCelsius(u, FromCelsius(u, c)) == c
  {
  }

  /** Every scale rises with temperature, so a conversion keeps the order of two readings. */
  lemma CelsiusMonotone(u: string, v: real, w: real)
    requires u in TemperatureUnits && v < w
    ensures ToCelsius(u, v) < ToCelsius(u, w)
    ensures FromCelsius(u, v) < FromCelsius(u, w)
  {
  }

  /** Freezing and boiling water, and the crossing of the Celsius and Fahrenheit scales. */
  lemma TemperatureLandmarks()
    ensures FromCelsius("Fahrenheit", 0.0) == 32.0 && FromCelsius("Kelvin", 0.0) == 273.15
    ensures FromCelsius("Fahrenheit", 100.0) == 212.0 && FromCelsius("Kelvin", 100.0) == 373.15
    ensures ToCelsius("Fahrenheit", -40.0) == -40.0
    ensures ToCelsius("Kelvin", 0.0) == -273.15
  {
  }

  /** The part of the formula that reads the source value in Celsius (formula_part_1). */
  function CelsiusPart(from: string, v: real, c: real, fl: Floats): string
  {
    if from == "Fahrenheit" then "(" + fl.str(v) + "°F - 32) × 5/9 = " + fl.str(c) + "°C"
    else fl.str(v) + "K - 273.15 = " + fl.str(c) + "°C"
  }

  /** convert_temperature: the converted value and the formula that explains it. */
  function ConvertTemperature(from: string, to: string, v: real, fl: Floats): (string, real)
    requires from in TemperatureUnits && to in TemperatureUnits
  {
    var c := ToCelsius(from, v);
    var r := FromCelsius(to, c);
    var formula :=
      if to == "Celsius" then
        (if from == "Celsius" then fl.str(v) + "°C = " + fl.str(r) + "°C" else CelsiusPart(from, v, c, fl))
      else if to == "Fahrenheit" then
        (if from == "Celsius" then fl.str(v) + "°C × 9/5 + 32 = " + fl.str(r) + "°F"
         else CelsiusPart(from, v, c, fl) + ", then " + fl.str(c) + "°C × 9/5 + 32 = " + fl.str(r) + "°F")
      else
        (if from == "Celsius" then fl.str(v) + "°C + 273.15 = " + fl.str(r) + "K"
         else CelsiusPart(from, v, c, fl) + ", then " + fl.str(c) + "°C + 273.15 = " + fl.str(r) + "K");
    (formula, r)
  }

  /**
   * A conversion from another scale states how the value reads in Celsius first; into
   * Celsius that is the whole formula, into the other scales it is followed by the second step.
   */
  lemma TemperatureFormulaSpec(from: string, to: string, v: real, fl: Floats)
    requires from in TemperatureUnits && to in TemperatureUnits
    ensures ConvertTemperature(from, to, v, fl).1 == FromCelsius(to, ToCelsius(from, v))
    ensures var part := CelsiusPart(from, v, ToCelsius(from, v), fl);
      from != "Celsius" ==>
        (to == "Celsius" ==> ConvertTemperature(from, to, v, fl).0 == part) &&
        (to != "Celsius" ==> ConvertTemperature(from, to, v, fl).0[..|part|] == part)
    ensures from == "Celsius" ==>
      ConvertTemperature(from, to, v, fl).0[..|fl.str(v)|] == fl.str(v)
  {
  }

  // ---------------------------------------------------------------- conversion

  /** The number convert() shows before formatting. */
  function Converted(c: Category, from: string, to: string, v: real): real
    requires Selected(c, from, to)
  {
    if c.Temperature? then FromCelsius(to, ToCelsius(from, v))
    else Scaled(v, Factor(c, from), Factor(c, to))
  }

  /** A factor conversion: into the base unit, then out into the target. */
  function Scaled(v: real, f: real, g: real): real
    requires g > 0.0
  {
    v * f / g
  }

  lemma ScaledRoundTrip(v: real, f: real, g: real)
    requires f > 0.0 && g > 0.0
    ensures Scaled(Scaled(v, f, g), g, f) == v
  {
    assert v * f / g * g == v * f;
  }

  lemma ScaledByEqualFactors(v: real, f: real)
    requires f > 0.0
    ensures Scaled(v, f, f) == v
  {
  }

  lemma ScaledLinear(v: real, k: real, f: real, g: real)
    requires g > 0.0
    ensures Scaled(k * v, f, g) == k * Scaled(v, f, g)
    ensures Scaled(0.0, f, g) == 0.0
  {
    assert k * v * f == k * (v * f);
  }

  lemma ScaledChain(v: real, f: real, g: real, h: real)
    requires g > 0.0 && h > 0.0
    ensures Scaled(Scaled(v, f, g), g, h) == Scaled(v, f, h)
  {
    assert v * f / g * g == v * f;
  }

  /** Converting into the same unit gives the value back. */
  lemma ConvertSameUnit(c: Category, u: string, v: real)
    requires Selected(c, u, u)
    ensures Converted(c, u, u, v) == v
  {
    if c.Temperature? {
      CelsiusRoundTrip(u, v, 0.0);
    } else {
      ScaledByEqualFactors(v, Factor(c, u));
    }
  }

  /** Converting there and back gives the value back. */
  lemma ConvertRoundTrip(c: Category, from: string, to: string, v: real)
    requires Selected(c, from, to)
    ensures Converted(c, to, from, Converted(c, from, to, v)) == v
  {
    if c.Temperature? {
      CelsiusRoundTrip(to, 0.0, ToCelsius(from, v));
      CelsiusRoundTrip(from, v, 0.0);
    } else {
      ScaledRoundTrip(v, Factor(c, from), Factor(c, to));
    }
  }

  /** Converting through an intermediate unit is the same as converting directly. */
  lemma ConvertChain(c: Category, a: string, b: string, d: string, v: real)
    requires Selected(c, a, b) && Selected(c, b, d)
    ensures Converted(c, b, d, Converted(c, a, b, v)) == Converted(c, a, d, v)
  {
    if c.Temperature? {
      CelsiusRoundTrip(b, 0.0, ToCelsius(a, v));
    } else {
      ScaledChain(v, Factor(c, a), Factor(c, b), Factor(c, d));
    }
  }

  /** Two units of the same size convert a value to itself. */
  lemma EqualFactorsKeepValue(c: Category, from: string, to: string, v: real)
    requires c.Factors? && Selected(c, from, to) && Factor(c, from) == Factor(c, to)
    ensures Converted(c, from, to, v) == v
  {
    ScaledByEqualFactors(v, Factor(c, from));
  }

  /** A factor conversion is linear: it scales with the value and maps zero to zero. */
  lemma FactorConversionIsLinear(c: Category, from: string, to: string, v: real, k: real)
    requires c.Factors? && Selected(c, from, to)
    ensures Converted(c, from, to, k * v) == k * Converted(c, from, to, v)
    ensures Converted(c, from, to, 0.0) == 0.0
  {
    var f, g := Factor(c, from), Factor(c, to);
    ScaledLinear(v, k, f, g);
    assert Converted(c, from, to, k * v) == Scaled(k * v, f, g);
  }

  function Abs(x: real): real
  {
    if x < 0.0 then -x else x
  }

  /** The result goes to exponent notation when it is tiny but not zero, or above a million. */
  predicate ExponentNotation(x: real)
  {
    (Abs(x) < 0.000001 && x != 0.0) || Abs(x) > 1000000.0
  }

  /** The result text with `digits` significant places: :.{digits}e or :.{digits}g. */
  function Formatted(x: real, digits: nat, fl: Floats): string
  {
    if ExponentNotation(x) then fl.exponent(digits, x) else fl.general(digits, x)
  }

  /**
   * Exactly zero and every magnitude from a millionth to a million, both ends included,
   * use the general format; everything else uses exponent notation.
   */
  lemma FormattedSpec(x: real, digits: nat, fl: Floats)
    ensures Formatted(x, digits, fl) == fl.general(digits, x) || Formatted(x, digits, fl) == fl.exponent(digits, x)
    ensures !ExponentNotation(x) <==> (x == 0.0 || 0.000001 <= Abs(x) <= 1000000.0)
  {
  }

  /** The formula line of a factor conversion; equal factors skip the multiply and divide. */
  function FactorFormula(c: Category, from: string, to: string, v: real, fl: Floats): string
    requires c.Factors? && Selected(c, from, to)
  {
    var f, g := Factor(c, from), Factor(c, to);
    var steps := if f == g then "" else " × " + fl.str(f) + " ÷ " + fl.str(g);
    (fl.str(v) + " " + from) + (steps + " = " + fl.str(Converted(c, from, to, v)) + " " + to)
  }

  /** What convert() leaves on the screen. */
  datatype Conversion =
    | Unchanged
    | Shown(toValue: string, formula: string, record: Option<Record>)

  const InvalidInput := "Invalid input"

  /**
   * convert(): nothing happens until both units are chosen; text float() rejects shows
   * "Invalid input" with an empty formula and logs nothing; otherwise the formatted
   * result, its formula and a "Unit Converter" record.
   */
  function Convert(c: Category, from: string, to: string, text: string, fl: Floats): Conversion
    requires from == "" || to == "" || Selected(c, from, to)
  {
    if from == "" || to == "" then Unchanged
    else match PyFloat(text, fl.syntax)
      case None => Shown(InvalidInput, "", None)
      case Some(v) =>
        var formula :=
          if c.Temperature? then ConvertTemperature(from, to, v, fl).0
          else FactorFormula(c, from, to, v, fl);
        var shown := Formatted(Converted(c, from, to, v), 10, fl);
        Shown(shown, formula, Some(Record("Unit Converter", fl.str(v) + " " + from + " to " + to, shown + " " + to)))
  }

  /**
   * The outcomes of convert(): it waits for both units; it logs exactly when the text reads
   * as a number, and then shows that number converted, with ten significant places, and
   * logs the value, both units and the shown result.
   */
  lemma ConvertSpec(c: Category, from: string, to: string, text: string, fl: Floats)
    requires from == "" || to == "" || Selected(c, from, to)
    ensures Convert(c, from, to, text, fl).Unchanged? <==> from == "" || to == ""
    ensures from != "" && to != "" ==>
      var r := Convert(c, from, to, text, fl);
      (r.record.None? <==> PyFloat(text, fl.syntax).None?) &&
      (r.record.None? ==> r.toValue == InvalidInput && r.formula == "") &&
      (r.record.Some? ==>
        var v := PyFloat(text, fl.syntax).value;
        r.toValue == Formatted(Converted(c, from, to, v), 10, fl) &&
        r.formula == (if c.Temperature? then ConvertTemperature(from, to, v, fl).0 else FactorFormula(c, from, to, v, fl)) &&
        r.record.value == Record("Unit Converter", fl.str(v) + " " + from + " to " + to, r.toValue + " " + to))
  {
  }

  /** A factor conversion's formula opens with the value as typed and its unit. */
  lemma FactorFormulaOpening(c: Category, from: string, to: string, v: real, fl: Floats)
    requires c.Factors? && Selected(c, from, to)
    ensures var opening := fl.str(v) + " " + from;
      var formula := FactorFormula(c, from, to, v, fl);
      |opening| <= |formula| && formula[..|opening|] == opening
  {
    var opening := fl.str(v) + " " + from;
    var formula := FactorFormula(c, from, to, v, fl);
    assert formula[..|opening|] == opening by {
      PrefixOfAppend(opening, formula[|opening|..]);
    }
  }

  lemma PrefixOfAppend(a: string, b: string)
    ensures (a + b)[..|a|] == a
  {
  }

  /**
   * Between two units of the same size the formula reads the value back unchanged, with no
   * multiply or divide step.
   */
  lemma EqualFactorsFormula(c: Category, from: string, to: string, v: real, fl: Floats)
    requires c.Factors? && Selected(c, from, to) && Factor(c, from) == Factor(c, to)
    ensures FactorFormula(c, from, to, v, fl) == fl.str(v) + " " + from + " = " + fl.str(v) + " " + to
  {
    EqualFactorsKeepValue(c, from, to, v);
    var rest := " = " + fl.str(v) + " " + to;
    assert "" + rest == rest;
  }

  // ---------------------------------------------------------------- unit selection

  /**
   * update_unit_options: a unit that the category does not offer is replaced, the source by
   * the first unit, the target by the second.
   */
  function SelectUnits(c: Category, from: string, to: string): (string, string)
    requires Valid(c)
  {
    var units := UnitNames(c);
    (if from in units then from else units[0],
     if to in units then to else if |units| > 1 then units[1] else units[0])
  }

  /**
   * After update_unit_options both units belong to the category, units already offered are
   * kept, a fresh category starts from two different units, and a second update changes nothing.
   */
  lemma SelectUnitsSpec(c: Category, from: string, to: string)
    requires Valid(c)
    ensures var (f, t) := SelectUnits(c, from, to);
      Selected(c, f, t) &&
      (from in UnitNames(c) ==> f == from) &&
      (to in UnitNames(c) ==> t == to) &&
      (from !in UnitNames(c) && to !in UnitNames(c) && |UnitNames(c)| > 1 ==> f != t) &&
      SelectUnits(c, f, t) == (f, t)
  {
  }

  /** The converter opens on Length with Meter and Kilometer selected. */
  lemma OpeningUnits()
    ensures Valid(Length)
    ensures SelectUnits(Length, "", "") == ("Meter", "Kilometer")
  {
    LengthValid();
    LengthNames();
  }

  lemma LengthNames()
    ensures |UnitNames(Length)| >= 2 && UnitNames(Length)[0] == "Meter" && UnitNames(Length)[1] == "Kilometer"
    ensures "" !in UnitNames(Length)
  {
  }

  /** Its opening conversion, 1 Meter to Kilometer, shows 0.001 in the general format. */
  lemma OpeningConversion(fl: Floats)
    ensures Valid(Length) && Selected(Length, "Meter", "Kilometer")
    ensures Convert(Length, "Meter", "Kilometer", "1", fl).toValue == fl.general(10, 0.001)
  {
    LengthValid();
    OneReadsAsOne(fl.syntax);
    LengthFactors();
    assert Converted(Length, "Meter", "Kilometer", 1.0) == 0.001;
  }

  lemma OneReadsAsOne(syntax: string -> Option<real>)
    ensures PyFloat("1", syntax) == Some(1.0)
  {
    assert PlainNumeral("1");
    assert AllDigits("1", 10) by { assert IsDigit('1', 10); }
    assert NatValue("1", 10) == 1;
  }

  lemma LengthFactors()
    ensures Valid(Length) ==> Factor(Length, "Meter") == 1.0 && Factor(Length, "Kilometer") == 1000.0
  {
  }

  // ---------------------------------------------------------------- common values

  /** A value of the common-values table: Python ints print without a fraction. */
  datatype Number = Int(i: int) | Float(x: real)

  function NumberValue(n: Number): real
  {
    match n
    case Int(i) => i as real
    case Float(x) => x
  }

  function NumberText(n: Number, fl: Floats): string
  {
    match n
    case Int(i) => IntText(i)
    case Float(x) => fl.str(x)
  }

  /** The four values update_common_values converts, chosen by category and source unit. */
  function CommonValues(c: Category, from: string): (r: seq<Number>)
    requires c.Temperature? ==> from in TemperatureUnits
    ensures |r| == 4
  {
    if c.Factors? then [Int(1), Int(10), Int(100), Int(1000)]
    else if from == "Celsius" then [Int(0), Int(20), Int(37), Int(100)]
    else if from == "Fahrenheit" then [Int(32), Int(68), Float(98.6), Int(212)]
    else [Float(273.15), Float(293.15), Float(310.15), Float(373.15)]
  }

  /** Whatever the source scale, the four temperatures are the same: 0, 20, 37 and 100 °C. */
  lemma CommonTemperaturesAgree(from: string, k: nat)
    requires from in TemperatureUnits && k < 4
    ensures ToCelsius(from, NumberValue(CommonValues(Temperature, from)[k])) == [0.0, 20.0, 37.0, 100.0][k]
  {
  }

  /** The units a row converts into: the listed ones other than the source, in order. */
  function Others(targets: seq<string>, unit: string): seq<string>
  {
    if targets == [] then []
    else (if targets[0] != unit then [targets[0]] else []) + Others(targets[1..], unit)
  }

  /** A unit is a target exactly when it is listed and is not the source. */
  lemma {:induction false} OthersSpec(targets: seq<string>, unit: string)
    ensures forall t :: t in Others(targets, unit) <==> t in targets && t != unit
    ensures |Others(targets, unit)| <= |targets|
  {
    if targets != [] {
      OthersSpec(targets[1..], unit);
      assert targets == [targets[0]] + targets[1..];
    }
  }

  /** One line of a common-value row: the target unit and its text "<value> <unit>". */
  datatype Line = Line(target: string, text: string)

  /** The text of the line converting `v` from `unit` into `t`, with six significant places. */
  function LineText(c: Category, unit: string, v: real, t: string, fl: Floats): string
    requires Selected(c, unit, t)
  {
    Formatted(Converted(c, unit, t, v), 6, fl) + " " + t
  }

  /** One row of the table: the caption "<value> <unit>:" and the conversions. */
  datatype Row = Row(caption: string, lines: seq<Line>)

  /** add_common_value_row: the caption, then one line per other unit of the category. */
  function CommonRow(c: Category, unit: string, n: Number, fl: Floats): Row
    requires Valid(c) && unit in UnitNames(c)
  {
    var targets := Others(UnitNames(c), unit);
    OthersSpec(UnitNames(c), unit);
    Row(NumberText(n, fl) + " " + unit + ":",
        seq(|targets|, k requires 0 <= k < |targets| => Line(targets[k], LineText(c, unit, NumberValue(n), targets[k], fl))))
  }

  /**
   * A row converts its value into every unit of the category except the source unit and
   * into nothing else, each with six significant places.
   */
  lemma CommonRowSpec(c: Category, unit: string, n: Number, fl: Floats, t: string)
    requires Valid(c) && unit in UnitNames(c)
    ensures var row := CommonRow(c, unit, n, fl);
      row.caption == NumberText(n, fl) + " " + unit + ":" &&
      ((exists j :: 0 <= j < |row.lines| && row.lines[j].target == t) <==> t in UnitNames(c) && t != unit)
    ensures var row := CommonRow(c, unit, n, fl);
      forall j :: 0 <= j < |row.lines| ==>
        row.lines[j].target != unit && row.lines[j].target in UnitNames(c) &&
        row.lines[j].text == LineText(c, unit, NumberValue(n), row.lines[j].target, fl)
  {
    var targets := Others(UnitNames(c), unit);
    OthersSpec(UnitNames(c), unit);
    var row := CommonRow(c, unit, n, fl);
    assert forall j :: 0 <= j < |row.lines| ==> row.lines[j].target == targets[j];
    if t in UnitNames(c) && t != unit {
      var j :| 0 <= j < |targets| && targets[j] == t;
      assert row.lines[j].target == t;
    }
  }

  /** update_common_values: one row per common value, in order. */
  function CommonTable(c: Category, from: string, fl: Floats): (rows: seq<Row>)
    requires Valid(c) && from in UnitNames(c)
  {
    var values := CommonValues(c, from);
    seq(4, k requires 0 <= k < 4 => CommonRow(c, from, values[k], fl))
  }

  /** The side table has four rows, the k-th converting the k-th common value. */
  lemma CommonTableSpec(c: Category, from: string, fl: Floats, k: nat)
    requires Valid(c) && from in UnitNames(c) && k < 4
    ensures |CommonTable(c, from, fl)| == 4
    ensures CommonTable(c, from, fl)[k] == CommonRow(c, from, CommonValues(c, from)[k], fl)
  {
  }
}
