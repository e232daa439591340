/**
 * Distance, time and speed conversion (veroviz/_utilities.py). Each conversion
 * goes through a base unit -- meters for distance, seconds for time -- by
 * multiplying with the source unit's factor and dividing by the target unit's.
 * Unit tokens are lowercased, then looked up; an unknown token is a lookup
 * failure (Python's KeyError), modelled as `None`. Arithmetic is exact (`real`).
 */
module Units {
  import opened Wrappers
  import opened Text

  datatype DistanceUnit = Meters | Kilometers | Miles | Feet | Yards | NauticalMiles

  datatype TimeUnit = Seconds | Minutes | Hours

  /** The canonical token of each distance unit. */
  function DistanceToken(u: DistanceUnit): string {
    match u
    case Meters => "m"
    case Kilometers => "km"
    case Miles => "mi"
    case Feet => "ft"
    case Yards => "yard"
    case NauticalMiles => "nmi"
  }

  /** The canonical token of each time unit. */
  function TimeToken(u: TimeUnit): string {
    match u
    case Seconds => "s"
    case Minutes => "min"
    case Hours => "h"
  }

  /** Meters in one unit (the role of the `VRV_CONST_METERS_PER_*` constants). */
  function MetersPer(u: DistanceUnit): (f: real)
    ensures f > 0.0
    ensures f == 1.0 <==> u == Meters
  {
    match u
    case Meters => 1.0
    case Kilometers => 1000.0
    case Miles => 1609.344
    case Feet => 0.3048
    case Yards => 0.9144
    case NauticalMiles => 1852.0
  }

  /** Seconds in one unit (the role of `VRV_CONST_SECONDS_PER_*`). */
  function SecondsPer(u: TimeUnit): (f: real)
    ensures f > 0.0
    ensures f == 1.0 <==> u == Seconds
  {
    match u
    case Seconds => 1.0
    case Minutes => 60.0
    case Hours => 3600.0
  }

  /** Lowercase the token, then look it up. */
  function ParseDistanceUnit(token: string): (r: Option<DistanceUnit>)
    ensures r.Some? ==> DistanceToken(r.value) == ToLower(token)
  {
    var t := ToLower(token);
    if t == "m" then Some(Meters)
    else if t == "km" then Some(Kilometers)
    else if t == "mi" then Some(Miles)
    else if t == "ft" then Some(Feet)
    else if t == "yard" then Some(Yards)
    else if t == "nmi" then Some(NauticalMiles)
    else None
  }

  function ParseTimeUnit(token: string): (r: Option<TimeUnit>)
    ensures r.Some? ==> TimeToken(r.value) == ToLower(token)
  {
    var t := ToLower(token);
    if t == "s" then Some(Seconds)
    else if t == "min" then Some(Minutes)
    else if t == "h" then Some(Hours)
    else None
  }

  /** A token is recognised as `u` exactly when it lowercases to `u`'s canonical token. */
  lemma ParseDistanceUnitIff(token: string, u: DistanceUnit)
    ensures ParseDistanceUnit(token) == Some(u) <==> ToLower(token) == DistanceToken(u)
  {
  }

  lemma ParseTimeUnitIff(token: string, u: TimeUnit)
    ensures ParseTimeUnit(token) == Some(u) <==> ToLower(token) == TimeToken(u)
  {
  }

  /** Every canonical token, lower- or upper-case, is recognised. */
  lemma DistanceTokensRecognised(u: DistanceUnit)
    ensures ParseDistanceUnit(DistanceToken(u)) == Some(u)
    ensures ParseDistanceUnit(ToUpper(DistanceToken(u))) == Some(u)
  {
    LowerOfLowercase(DistanceToken(u));
    LowerOfUpper(DistanceToken(u));
  }

  lemma TimeTokensRecognised(u: TimeUnit)
    ensures ParseTimeUnit(TimeToken(u)) == Some(u)
    ensures ParseTimeUnit(ToUpper(TimeToken(u))) == Some(u)
  {
    LowerOfLowercase(TimeToken(u));
    LowerOfUpper(TimeToken(u));
  }

  /** Lookups see only the lowercase form of a token. */
  lemma DistanceParseCaseInsensitive(token: string)
    ensures ParseDistanceUnit(ToUpper(token)) == ParseDistanceUnit(token)
  {
    LowerOfUpper(token);
  }

  lemma TimeParseCaseInsensitive(token: string)
    ensures ParseTimeUnit(ToUpper(token)) == ParseTimeUnit(token)
  {
    LowerOfUpper(token);
  }

  lemma DivSwap(a: real, b: real, c: real)
    requires b != 0.0 && c != 0.0
    ensures a / b / c == a / c / b
  {
  }

  lemma DivMul(a: real, b: real, c: real)
    requires b != 0.0
    ensures a / b * c == a * c / b
  {
  }

  lemma ScaleReorder(a: real, b: real, c: real, d: real, e: real)
    requires b != 0.0 && c != 0.0
    ensures a * d / b / c * e == a * d / c * e / b
  {
    DivSwap(a * d, b, c);
    DivMul(a * d / c, b, e);
  }

  lemma MulCancel(x: real, y: real, z: real)
    requires z != 0.0 && x * z == y * z
    ensures x == y
  {
  }

  lemma RateRestore(x: real, c: real, d: real)
    requires c != 0.0 && d != 0.0
    ensures x / c * d * c / d == x
  {
  }

  lemma DivCancel(x: real, y: real)
    requires y != 0.0
    ensures x / y * y == x
  {
  }
  /** Scaling `x` by a / b / c * d to `y`, then `y` by c / d / a * b to `z`, gives `x` back. */
  lemma ScaleRoundTrip(x: real, y: real, z: real, a: real, b: real, c: real, d: real)
    requires a != 0.0 && b != 0.0 && c != 0.0 && d != 0.0
    requires y == x * a / b / c * d
    requires z == y * c / d / a * b
    ensures z == x
  {
    assert y * c / d == x * a / b;
  }

  /** `privConvertDistance`: defined exactly when both unit tokens are recognised. */
  function ConvertDistance(distance: real, fromUnits: string, toUnits: string): (r: Option<real>)
    ensures r.Some? <==> ParseDistanceUnit(fromUnits).Some? && ParseDistanceUnit(toUnits).Some?
  {
    ConvertParsedDistance(distance, ParseDistanceUnit(fromUnits), ParseDistanceUnit(toUnits))
  }

  /** The arithmetic of `privConvertDistance` on looked-up units; `None` stands for a failed lookup. */
  function ConvertParsedDistance(distance: real, from: Option<DistanceUnit>, to: Option<DistanceUnit>): (r: Option<real>)
    ensures r.Some? <==> from.Some? && to.Some?
  {
    match from
    case None => None
    case Some(f) =>
      var tmpDist := distance * MetersPer(f);
      match to
      case None => None
      case Some(t) => Some(tmpDist / MetersPer(t))
  }

  /** `privConvertTime`: defined exactly when both unit tokens are recognised. */
  function ConvertTime(time: real, fromUnits: string, toUnits: string): (r: Option<real>)
    ensures r.Some? <==> ParseTimeUnit(fromUnits).Some? && ParseTimeUnit(toUnits).Some?
  {
    ConvertParsedTime(time, ParseTimeUnit(fromUnits), ParseTimeUnit(toUnits))
  }

  /** The arithmetic of `privConvertTime` on looked-up units; `None` stands for a failed lookup. */
  function ConvertParsedTime(time: real, from: Option<TimeUnit>, to: Option<TimeUnit>): (r: Option<real>)
    ensures r.Some? <==> from.Some? && to.Some?
  {
    match from
    case None => None
    case Some(f) =>
      var tmpTime := time * SecondsPer(f);
      match to
      case None => None
      case Some(t) => Some(tmpTime / SecondsPer(t))
  }

  /**
   * `privConvertSpeed`: the four tokens are looked up, then the speed goes to meters
   * per source time unit, to meters per second, to target distance units per second
   * and to target distance per target time unit. An unknown token in any of the four
   * positions gives no result.
   */
  function ConvertSpeed(speed: real, fromUnitsDist: string, fromUnitsTime: string,
                        toUnitsDist: string, toUnitsTime: string): (r: Option<real>)
    ensures r.Some? <==>
      && ParseDistanceUnit(fromUnitsDist).Some? && ParseTimeUnit(fromUnitsTime).Some?
      && ParseDistanceUnit(toUnitsDist).Some? && ParseTimeUnit(toUnitsTime).Some?
  {
    ConvertParsedSpeed(speed, ParseDistanceUnit(fromUnitsDist), ParseTimeUnit(fromUnitsTime),
                       ParseDistanceUnit(toUnitsDist), ParseTimeUnit(toUnitsTime))
  }

  /** `privConvertSpeed` on looked-up units; `None` stands for a failed lookup. */
  function ConvertParsedSpeed(speed: real, fromDist: Option<DistanceUnit>, fromTime: Option<TimeUnit>,
                              toDist: Option<DistanceUnit>, toTime: Option<TimeUnit>): (r: Option<real>)
    ensures r.Some? <==> fromDist.Some? && fromTime.Some? && toDist.Some? && toTime.Some?
  {
    match fromDist
    case None => None
    case Some(fd) =>
      match fromTime
      case None => None
      case Some(ft) =>
        match toDist
        case None => None
        case Some(td) =>
          match toTime
          case None => None
          case Some(tt) => Some(SpeedValue(speed, fd, ft, td, tt))
  }

  /**
   * The arithmetic of `privConvertSpeed`: to meters per source time unit, to meters
   * per second, to target distance units per second, to target distance per target
   * time unit.
   */
  function SpeedValue(speed: real, fd: DistanceUnit, ft: TimeUnit, td: DistanceUnit, tt: TimeUnit): real {
    var tmpSpeed := speed * MetersPer(fd);
    var tmpSpeed := tmpSpeed / SecondsPer(ft);
    var tmpSpeed := tmpSpeed / MetersPer(td);
    tmpSpeed * SecondsPer(tt)
  }

  lemma ParsedDistanceFormula(distance: real, f: DistanceUnit, t: DistanceUnit)
    ensures ConvertParsedDistance(distance, Some(f), Some(t)) == Some(distance * MetersPer(f) / MetersPer(t))
  {
  }

  /** The value `privConvertDistance` computes once both tokens are recognised. */
  lemma DistanceFormula(distance: real, fromUnits: string, toUnits: string)
    requires ConvertDistance(distance, fromUnits, toUnits).Some?
    ensures ConvertDistance(distance, fromUnits, toUnits).value ==
      distance * MetersPer(ParseDistanceUnit(fromUnits).value) / MetersPer(ParseDistanceUnit(toUnits).value)
  {
    var f, t := ParseDistanceUnit(fromUnits), ParseDistanceUnit(toUnits);
    assert ConvertDistance(distance, fromUnits, toUnits) == ConvertParsedDistance(distance, f, t);
    ParsedDistanceFormula(distance, f.value, t.value);
  }

  /** On recognised units, the converted distance measures the same length as the input. */
  lemma ParsedDistanceMeasure(distance: real, f: DistanceUnit, t: DistanceUnit)
    ensures ConvertParsedDistance(distance, Some(f), Some(t)).value * MetersPer(t) == distance * MetersPer(f)
  {
    ParsedDistanceFormula(distance, f, t);
    DivCancel(distance * MetersPer(f), MetersPer(t));
  }

  /** The converted distance measures the same length as the input. */
  lemma DistanceMeasure(distance: real, fromUnits: string, toUnits: string)
    requires ConvertDistance(distance, fromUnits, toUnits).Some?
    ensures ConvertDistance(distance, fromUnits, toUnits).value * MetersPer(ParseDistanceUnit(toUnits).value)
         == distance * MetersPer(ParseDistanceUnit(fromUnits).value)
  {
    ParsedDistanceMeasure(distance, ParseDistanceUnit(fromUnits).value, ParseDistanceUnit(toUnits).value);
  }

  /** Converting a distance to its own unit is the identity. */
  lemma DistanceIdentity(distance: real, units: string)
    requires ParseDistanceUnit(units).Some?
    ensures ConvertDistance(distance, units, units) == Some(distance)
  {
    DistanceMeasure(distance, units, units);
    MulCancel(ConvertDistance(distance, units, units).value, distance, MetersPer(ParseDistanceUnit(units).value));
  }

  /** Converting there and back gives the original distance. */
  lemma DistanceRoundTrip(distance: real, a: string, b: string)
    requires ParseDistanceUnit(a).Some? && ParseDistanceUnit(b).Some?
    ensures ConvertDistance(distance, a, b).Some?
    ensures ConvertDistance(ConvertDistance(distance, a, b).value, b, a) == Some(distance)
  {
    var y := ConvertDistance(distance, a, b).value;
    var z := ConvertDistance(y, b, a).value;
    DistanceMeasure(distance, a, b);
    DistanceMeasure(y, b, a);
    MulCancel(z, distance, MetersPer(ParseDistanceUnit(a).value));
  }

  /** On recognised units, the converted time measures the same duration as the input. */
  lemma ParsedTimeMeasure(time: real, f: TimeUnit, t: TimeUnit)
    ensures ConvertParsedTime(time, Some(f), Some(t)).value * SecondsPer(t) == time * SecondsPer(f)
  {
    var tmpTime := time * SecondsPer(f);
    assert ConvertParsedTime(time, Some(f), Some(t)).value == tmpTime / SecondsPer(t);
    DivCancel(tmpTime, SecondsPer(t));
  }

  /** The converted time measures the same duration as the input. */
  lemma TimeMeasure(time: real, fromUnits: string, toUnits: string)
    requires ConvertTime(time, fromUnits, toUnits).Some?
    ensures ConvertTime(time, fromUnits, toUnits).value * SecondsPer(ParseTimeUnit(toUnits).value)
         == time * SecondsPer(ParseTimeUnit(fromUnits).value)
  {
    ParsedTimeMeasure(time, ParseTimeUnit(fromUnits).value, ParseTimeUnit(toUnits).value);
  }

  /** Converting a time to its own unit is the identity. */
  lemma TimeIdentity(time: real, units: string)
    requires ParseTimeUnit(units).Some?
    ensures ConvertTime(time, units, units) == Some(time)
  {
    TimeMeasure(time, units, units);
    MulCancel(ConvertTime(time, units, units).value, time, SecondsPer(ParseTimeUnit(units).value));
  }

  /** Converting there and back gives the original time. */
  lemma TimeRoundTrip(time: real, a: string, b: string)
    requires ParseTimeUnit(a).Some? && ParseTimeUnit(b).Some?
    ensures ConvertTime(time, a, b).Some?
    ensures ConvertTime(ConvertTime(time, a, b).value, b, a) == Some(time)
  {
    var y := ConvertTime(time, a, b).value;
    var z := ConvertTime(y, b, a).value;
    TimeMeasure(time, a, b);
    TimeMeasure(y, b, a);
    MulCancel(z, time, SecondsPer(ParseTimeUnit(a).value));
  }

  /** The case of a token does not matter. */
  lemma DistanceCaseInsensitive(distance: real, fromUnits: string, toUnits: string)
    ensures ConvertDistance(distance, ToUpper(fromUnits), ToUpper(toUnits))
         == ConvertDistance(distance, fromUnits, toUnits)
  {
    DistanceParseCaseInsensitive(fromUnits);
    DistanceParseCaseInsensitive(toUnits);
  }

  lemma TimeCaseInsensitive(time: real, fromUnits: string, toUnits: string)
    ensures ConvertTime(time, ToUpper(fromUnits), ToUpper(toUnits))
         == ConvertTime(time, fromUnits, toUnits)
  {
    TimeParseCaseInsensitive(fromUnits);
    TimeParseCaseInsensitive(toUnits);
  }

  lemma SpeedCaseInsensitive(speed: real, fd: string, ft: string, td: string, tt: string)
    ensures ConvertSpeed(speed, ToUpper(fd), ToUpper(ft), ToUpper(td), ToUpper(tt))
         == ConvertSpeed(speed, fd, ft, td, tt)
  {
    DistanceParseCaseInsensitive(fd);
    TimeParseCaseInsensitive(ft);
    DistanceParseCaseInsensitive(td);
    TimeParseCaseInsensitive(tt);
  }

  lemma ParsedSpeedFormula(speed: real, fd: DistanceUnit, ft: TimeUnit, td: DistanceUnit, tt: TimeUnit)
    ensures ConvertParsedSpeed(speed, Some(fd), Some(ft), Some(td), Some(tt))
         == Some(speed * MetersPer(fd) / SecondsPer(ft) / MetersPer(td) * SecondsPer(tt))
  {
    assert ConvertParsedSpeed(speed, Some(fd), Some(ft), Some(td), Some(tt)) == Some(SpeedValue(speed, fd, ft, td, tt));
  }

  /** `SpeedValue` as one expression over the unit factors. */
  lemma SpeedValueFormula(speed: real, fd: DistanceUnit, ft: TimeUnit, td: DistanceUnit, tt: TimeUnit)
    ensures SpeedValue(speed, fd, ft, td, tt) == speed * MetersPer(fd) / SecondsPer(ft) / MetersPer(td) * SecondsPer(tt)
  {
  }

  /** With all four tokens recognised, `privConvertSpeed` computes `SpeedValue` of the looked-up units. */
  lemma SpeedIsValue(speed: real, fd: string, ft: string, td: string, tt: string)
    requires ParseDistanceUnit(fd).Some? && ParseTimeUnit(ft).Some?
    requires ParseDistanceUnit(td).Some? && ParseTimeUnit(tt).Some?
    ensures ConvertSpeed(speed, fd, ft, td, tt)
         == Some(SpeedValue(speed, ParseDistanceUnit(fd).value, ParseTimeUnit(ft).value,
                            ParseDistanceUnit(td).value, ParseTimeUnit(tt).value))
  {
    var pfd, pft, ptd, ptt := ParseDistanceUnit(fd), ParseTimeUnit(ft), ParseDistanceUnit(td), ParseTimeUnit(tt);
    assert ConvertSpeed(speed, fd, ft, td, tt) == ConvertParsedSpeed(speed, pfd, pft, ptd, ptt);
  }

  /** The value `privConvertSpeed` computes once all four tokens are recognised. */
  lemma SpeedFormula(speed: real, fd: string, ft: string, td: string, tt: string)
    requires ConvertSpeed(speed, fd, ft, td, tt).Some?
    ensures ConvertSpeed(speed, fd, ft, td, tt).value ==
      speed * MetersPer(ParseDistanceUnit(fd).value) / SecondsPer(ParseTimeUnit(ft).value)
        / MetersPer(ParseDistanceUnit(td).value) * SecondsPer(ParseTimeUnit(tt).value)
  {
    var pfd, pft, ptd, ptt := ParseDistanceUnit(fd), ParseTimeUnit(ft), ParseDistanceUnit(td), ParseTimeUnit(tt);
    assert ConvertSpeed(speed, fd, ft, td, tt) == ConvertParsedSpeed(speed, pfd, pft, ptd, ptt);
    ParsedSpeedFormula(speed, pfd.value, pft.value, ptd.value, ptt.value);
  }

  /** Speed conversion is distance conversion, scaled by the ratio of the time units. */
  lemma SpeedViaDistance(speed: real, fd: string, ft: string, td: string, tt: string)
    requires ParseTimeUnit(ft).Some? && ParseTimeUnit(tt).Some?
    ensures ConvertSpeed(speed, fd, ft, td, tt).Some? <==> ConvertDistance(speed, fd, td).Some?
    ensures ConvertSpeed(speed, fd, ft, td, tt).Some? ==>
      ConvertSpeed(speed, fd, ft, td, tt).value ==
      ConvertDistance(speed, fd, td).value * SecondsPer(ParseTimeUnit(tt).value) / SecondsPer(ParseTimeUnit(ft).value)
  {
    if ConvertSpeed(speed, fd, ft, td, tt).Some? {
      SpeedFormula(speed, fd, ft, td, tt);
      DistanceFormula(speed, fd, td);
      ScaleReorder(speed, SecondsPer(ParseTimeUnit(ft).value), MetersPer(ParseDistanceUnit(td).value),
                   MetersPer(ParseDistanceUnit(fd).value), SecondsPer(ParseTimeUnit(tt).value));
    }
  }

  /** The converted speed is the same rate: meters per second agree on both sides. */
  lemma SpeedPreservesRate(speed: real, fd: string, ft: string, td: string, tt: string)
    requires ConvertSpeed(speed, fd, ft, td, tt).Some?
    ensures
      var v := ConvertSpeed(speed, fd, ft, td, tt).value;
      v * MetersPer(ParseDistanceUnit(td).value) / SecondsPer(ParseTimeUnit(tt).value) ==
      speed * MetersPer(ParseDistanceUnit(fd).value) / SecondsPer(ParseTimeUnit(ft).value)
  {
    SpeedFormula(speed, fd, ft, td, tt);
    var perSecond := speed * MetersPer(ParseDistanceUnit(fd).value) / SecondsPer(ParseTimeUnit(ft).value);
    RateRestore(perSecond, MetersPer(ParseDistanceUnit(td).value), SecondsPer(ParseTimeUnit(tt).value));
  }

  /** A speed converted to its own units is unchanged. */
  lemma SpeedIdentity(speed: real, dist: string, time: string)
    requires ParseDistanceUnit(dist).Some? && ParseTimeUnit(time).Some?
    ensures ConvertSpeed(speed, dist, time, dist, time) == Some(speed)
  {
    SpeedViaDistance(speed, dist, time, dist, time);
  }

  /** Rescaling a speed to other units and back is the identity. */
  lemma SpeedValueRoundTrip(speed: real, fd: DistanceUnit, ft: TimeUnit, td: DistanceUnit, tt: TimeUnit)
    ensures SpeedValue(SpeedValue(speed, fd, ft, td, tt), td, tt, fd, ft) == speed
  {
    var v := SpeedValue(speed, fd, ft, td, tt);
    SpeedValueFormula(speed, fd, ft, td, tt);
    SpeedValueFormula(v, td, tt, fd, ft);
    ScaleRoundTrip(speed, v, SpeedValue(v, td, tt, fd, ft), MetersPer(fd), SecondsPer(ft), MetersPer(td), SecondsPer(tt));
  }

  /** Converting a speed to other units and back returns it, for every choice of recognised units. */
  lemma SpeedRoundTrip(speed: real, fd: string, ft: string, td: string, tt: string)
    requires ParseDistanceUnit(fd).Some? && ParseTimeUnit(ft).Some?
    requires ParseDistanceUnit(td).Some? && ParseTimeUnit(tt).Some?
    ensures ConvertSpeed(speed, fd, ft, td, tt).Some?
    ensures ConvertSpeed(ConvertSpeed(speed, fd, ft, td, tt).value, td, tt, fd, ft) == Some(speed)
  {
    var ufd, uft, utd, utt := ParseDistanceUnit(fd).value, ParseTimeUnit(ft).value, ParseDistanceUnit(td).value, ParseTimeUnit(tt).value;
    SpeedIsValue(speed, fd, ft, td, tt);
    var v := SpeedValue(speed, ufd, uft, utd, utt);
    SpeedIsValue(v, td, tt, fd, ft);
    SpeedValueRoundTrip(speed, ufd, uft, utd, utt);
  }

  lemma MileInKilometers()
    ensures ConvertDistance(1.0, "mi", "km") == Some(1.609344)
  {
    DistanceTokensRecognised(Miles);
    DistanceTokensRecognised(Kilometers);
  }

  lemma SixtyMilesPerHourInKilometersPerHour()
    ensures ConvertSpeed(60.0, "mi", "h", "km", "h") == Some(96.56064)
  {
    DistanceTokensRecognised(Miles);
    DistanceTokensRecognised(Kilometers);
    TimeTokensRecognised(Hours);
  }
}
