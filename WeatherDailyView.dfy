/** The hourly forecast of the daily view: the per-metric arrays of each forecast day are
    joined by their `periodo` tag into one entry per temperature reading, the entries are
    sorted by timestamp, and the "current" hour and the next twelve hours are picked out. */
module WeatherDailyView {
  import opened Wrappers
  import opened JsStrings
  import opened Seqs
  import opened Sorting

  // ---------------------------------------------------------------------------------------
  // The forecast as the service returns it

  /** A `{ value, periodo }` reading: precipitation, temperature, humidity and the like. */
  datatype Reading = Reading(value: string, periodo: string)

  /** A sky-state reading: the icon code in `value` and a textual description. */
  datatype SkyReading = SkyReading(value: string, descripcion: string, periodo: string)

  /** A wind record: either a speed/direction record or a gust record (`value`). */
  datatype WindReading = WindReading(direccion: Option<seq<string>>, velocidad: Option<seq<string>>,
                                     value: Option<string>, periodo: string)

  datatype DayPrediction = DayPrediction(
    estadoCielo: seq<SkyReading>,
    precipitacion: seq<Reading>,
    probPrecipitacion: seq<Reading>,
    temperatura: seq<Reading>,
    sensTermica: seq<Reading>,
    humedadRelativa: seq<Reading>,
    vientoAndRachaMax: seq<WindReading>,
    fecha: string,
    orto: string,
    ocaso: string)

  /** The response; `dia` is `None` when `prediccion` or `prediccion.dia` is missing. */
  datatype WeatherData = WeatherData(dia: Option<seq<DayPrediction>>)

  /** One hour of the flattened forecast; `None` stands for `undefined`. */
  datatype HourEntry = HourEntry(
    dateTime: string,
    hour: Option<int>,
    temp: string,
    sky: Option<string>,
    icon: Option<string>,
    precip: string,
    humidity: Option<string>,
    sens: Option<string>,
    windSpeed: Option<string>,
    windDir: Option<string>,
    gust: Option<string>,
    orto: string,
    ocaso: string,
    probPrecip: string)

  // ---------------------------------------------------------------------------------------
  // One hour

  /** `fecha.split('T')[0]`. */
  function DatePart(fecha: string): string
  {
    Split(fecha, 'T')[0]
  }

  /** `${dateStr}T${hour.padStart(2, '0')}:00:00`. */
  function DateTimeOf(dateStr: string, periodo: string): string
  {
    dateStr + "T" + PadStart(periodo, 2, '0') + ":00:00"
  }

  /** `x || '0'` on an optional string: `"0"` when it is missing or empty. */
  function OrZero(x: Option<string>): (r: string)
    ensures r == "0" <==> x.None? || x.value == "" || x.value == "0"
    ensures x.Some? && x.value != "" ==> r == x.value
  {
    if x.Some? && x.value != "" then x.value else "0"
  }

  /** `xs?.[0]`. */
  function First(xs: Option<seq<string>>): Option<string>
  {
    if xs.Some? && |xs.value| > 0 then Some(xs.value[0]) else None
  }

  function ValueOf(r: Option<Reading>): Option<string>
  {
    if r.Some? then Some(r.value.value) else None
  }

  /** A wind record carries a speed (`velocidad` is an array, hence truthy, when present). */
  predicate HasSpeed(w: WindReading) { w.velocidad.Some? }

  /** A wind record carries a gust (`value` is present and not the empty string). */
  predicate HasGust(w: WindReading) { w.value.Some? && w.value.value != "" }

  /** The same-period tests of the `find` and `filter` callbacks. */
  function SkyAt(hour: string): SkyReading -> bool { (s: SkyReading) => s.periodo == hour }
  function ReadingAt(hour: string): Reading -> bool { (r: Reading) => r.periodo == hour }
  function WindAt(hour: string): WindReading -> bool { (v: WindReading) => v.periodo == hour }

  /** The entry the inner loop pushes for temperature reading `t` of `day`. */
  function MakeHour(day: DayPrediction, dateStr: string, t: Reading): HourEntry
  {
    var hour := t.periodo;
    var sky := Find(day.estadoCielo, SkyAt(hour));
    var precip := Find(day.precipitacion, ReadingAt(hour));
    var hum := Find(day.humedadRelativa, ReadingAt(hour));
    var sens := Find(day.sensTermica, ReadingAt(hour));
    var windEntries := Filter(day.vientoAndRachaMax, WindAt(hour));
    var wind := Find(windEntries, HasSpeed);
    var gust := Find(windEntries, HasGust);
    HourEntry(
      dateTime := DateTimeOf(dateStr, hour),
      hour := ParseInt(hour),
      temp := t.value,
      sky := if sky.Some? then Some(sky.value.descripcion) else None,
      icon := if sky.Some? then Some(sky.value.value) else None,
      precip := OrZero(ValueOf(precip)),
      humidity := ValueOf(hum),
      sens := ValueOf(sens),
      windSpeed := if wind.Some? then First(wind.value.velocidad) else None,
      windDir := if wind.Some? then First(wind.value.direccion) else None,
      gust := if gust.Some? then gust.value.value else None,
      orto := day.orto,
      ocaso := day.ocaso,
      probPrecip := OrZero(if |day.probPrecipitacion| > 0 then Some(day.probPrecipitacion[0].value) else None))
  }

  /** `xs[i]` is the first element of `xs` satisfying `p`. */
  ghost predicate FirstWith<T>(xs: seq<T>, p: T -> bool, i: int)
  {
    0 <= i < |xs| && p(xs[i]) && forall k :: 0 <= k < i ==> !p(xs[k])
  }

  /** `parseInt` of a period written as the numeral of n, with or without one leading zero. */
  lemma PeriodHour(periodo: string, n: nat)
    ensures periodo == IntToString(n) ==> ParseInt(periodo) == Some(n)
    ensures |periodo| == 2 && periodo[0] == '0' && periodo[1..] == IntToString(n) ==>
              ParseInt(periodo) == Some(n)
  {
    if periodo == IntToString(n) {
      ParseIntOfIntToString(n);
    }
    if |periodo| == 2 && periodo[0] == '0' && periodo[1..] == IntToString(n) {
      assert periodo == "0" + IntToString(n);
      ParseIntZeroPadded(n);
    }
  }

  /** The hour's timestamp, number and temperature. The timestamp splits at its first 'T'
      back into the day's date, and with a one- or two-character period it has the fixed
      width of `YYYY-MM-DDTHH:00:00` past the date; a period written as the decimal numeral
      of n, with or without one leading zero, gives the hour number n; the temperature is
      the reading's value. */
  lemma HourBasics(day: DayPrediction, t: Reading, n: nat)
    ensures var h := MakeHour(day, DatePart(day.fecha), t);
      && DatePart(h.dateTime) == DatePart(day.fecha)
      && (|t.periodo| <= 2 ==> |h.dateTime| == |DatePart(day.fecha)| + 9)
      && (t.periodo == IntToString(n) ==> h.hour == Some(n))
      && (|t.periodo| == 2 && t.periodo[0] == '0' && t.periodo[1..] == IntToString(n) ==>
            h.hour == Some(n))
      && h.temp == t.value
  {
    var h := MakeHour(day, DatePart(day.fecha), t);
    assert h.dateTime == DateTimeOf(DatePart(day.fecha), t.periodo);
    assert h.hour == ParseInt(t.periodo) && h.temp == t.value;
    DateTimeOfParts(day.fecha, t.periodo);
    PeriodHour(t.periodo, n);
  }

  /** Sky state and icon come from the first sky record of the same period, and are
      missing exactly when there is none. */
  lemma HourSky(day: DayPrediction, dateStr: string, t: Reading)
    ensures var h := MakeHour(day, dateStr, t);
      && (h.sky.None? <==> forall k :: 0 <= k < |day.estadoCielo| ==> day.estadoCielo[k].periodo != t.periodo)
      && h.icon.None? == h.sky.None?
      && forall i :: FirstWith(day.estadoCielo, SkyAt(t.periodo), i) ==>
           h.sky == Some(day.estadoCielo[i].descripcion) && h.icon == Some(day.estadoCielo[i].value)
  {
    FirstUnique(day.estadoCielo, SkyAt(t.periodo));
  }

  /** Precipitation comes from the first record of the same period; it is `"0"` when there
      is none or its value is empty. */
  lemma HourPrecip(day: DayPrediction, dateStr: string, t: Reading)
    ensures var h := MakeHour(day, dateStr, t);
      && ((forall k :: 0 <= k < |day.precipitacion| ==> day.precipitacion[k].periodo != t.periodo) ==> h.precip == "0")
      && (forall i :: FirstWith(day.precipitacion, ReadingAt(t.periodo), i) ==>
            h.precip == OrZero(Some(day.precipitacion[i].value)))
  {
    FirstUnique(day.precipitacion, ReadingAt(t.periodo));
  }

  /** Humidity comes from the first record of the same period, missing when there is none. */
  lemma HourHumidity(day: DayPrediction, dateStr: string, t: Reading)
    ensures var h := MakeHour(day, dateStr, t);
      && (h.humidity.None? <==> forall k :: 0 <= k < |day.humedadRelativa| ==> day.humedadRelativa[k].periodo != t.periodo)
      && (forall i :: FirstWith(day.humedadRelativa, ReadingAt(t.periodo), i) ==>
            h.humidity == Some(day.humedadRelativa[i].value))
  {
    FirstUnique(day.humedadRelativa, ReadingAt(t.periodo));
  }

  /** The apparent temperature comes from the first record of the same period, missing
      when there is none. */
  lemma HourSens(day: DayPrediction, dateStr: string, t: Reading)
    ensures var h := MakeHour(day, dateStr, t);
      && (h.sens.None? <==> forall k :: 0 <= k < |day.sensTermica| ==> day.sensTermica[k].periodo != t.periodo)
      && (forall i :: FirstWith(day.sensTermica, ReadingAt(t.periodo), i) ==>
            h.sens == Some(day.sensTermica[i].value))
  {
    FirstUnique(day.sensTermica, ReadingAt(t.periodo));
  }

  /** Speed and direction come from the first same-period wind record that has a speed
      (element 0 of its arrays), the gust from the first same-period record with a gust. */
  lemma HourWind(day: DayPrediction, dateStr: string, t: Reading)
    ensures var h := MakeHour(day, dateStr, t); var winds := day.vientoAndRachaMax;
      && ((forall k :: 0 <= k < |winds| ==> !(winds[k].periodo == t.periodo && HasSpeed(winds[k])))
          ==> h.windSpeed.None? && h.windDir.None?)
      && (forall i :: FirstWith(winds, SpeedAt(t.periodo), i) ==>
            h.windSpeed == First(winds[i].velocidad) && h.windDir == First(winds[i].direccion))
      && ((forall k :: 0 <= k < |winds| ==> !(winds[k].periodo == t.periodo && HasGust(winds[k])))
          ==> h.gust.None?)
      && (forall i :: FirstWith(winds, GustAt(t.periodo), i) ==> h.gust == winds[i].value)
  {
    var winds := day.vientoAndRachaMax;
    FindFilter(winds, WindAt(t.periodo), HasSpeed, SpeedAt(t.periodo));
    FindFilter(winds, WindAt(t.periodo), HasGust, GustAt(t.periodo));
    FirstUnique(winds, SpeedAt(t.periodo));
    FirstUnique(winds, GustAt(t.periodo));
  }

  function SpeedAt(hour: string): WindReading -> bool { (v: WindReading) => v.periodo == hour && HasSpeed(v) }
  function GustAt(hour: string): WindReading -> bool { (v: WindReading) => v.periodo == hour && HasGust(v) }

  /** `find` returns the element at the first index satisfying the predicate. */
  lemma FirstUnique<T>(xs: seq<T>, p: T -> bool)
    ensures forall i :: FirstWith(xs, p, i) ==> Find(xs, p) == Some(xs[i])
  {
    forall i | FirstWith(xs, p, i) ensures Find(xs, p) == Some(xs[i]) {
      var j := FindIndex(xs, p);
      assert j >= 0;
      assert !(j < i) && !(i < j);
    }
  }

  /** The timestamp starts with the date of `fecha` followed by 'T', so splitting it at its
      first 'T' gives that date back; the hour is the period padded to two digits. */
  lemma DateTimeOfParts(fecha: string, periodo: string)
    ensures var d := DatePart(fecha); var dt := DateTimeOf(d, periodo);
      && 'T' !in d
      && DatePart(dt) == d
      && dt == d + "T" + PadStart(periodo, 2, '0') + ":00:00"
      && |PadStart(periodo, 2, '0')| >= 2
      && EndsWith(dt, ":00:00")
  {
    var d := DatePart(fecha);
    var dt := DateTimeOf(d, periodo);
    assert d == Split(fecha, 'T')[0];
    assert dt[|d|] == 'T' && dt[..|d|] == d;
    SplitAtFirst(dt, 'T', |d|);
  }

  // ---------------------------------------------------------------------------------------
  // The flatten, join and sort

  /** The entries of one day, one per temperature reading, in order. */
  function DayHours(day: DayPrediction): (r: seq<HourEntry>)
    ensures |r| == |day.temperatura|
  {
    seq(|day.temperatura|, i requires 0 <= i < |day.temperatura| =>
      MakeHour(day, DatePart(day.fecha), day.temperatura[i]))
  }

  /** What the nested `forEach` loops push, day after day. */
  function Flat(days: seq<DayPrediction>): seq<HourEntry>
  {
    if |days| == 0 then [] else Flat(days[..|days| - 1]) + DayHours(days[|days| - 1])
  }

  function DateTimeKey(h: HourEntry): string { h.dateTime }

  /** The `hourlyData` memo. */
  function HourlyData(data: WeatherData): seq<HourEntry>
  {
    if data.dia.None? then [] else SortBy(Flat(data.dia.value), DateTimeKey)
  }

  /** The flatten: the outer `forEach` over the days. */
  method Flatten(days: seq<DayPrediction>) returns (flattened: seq<HourEntry>)
    ensures flattened == Flat(days)
  {
    flattened := [];
    for d := 0 to |days|
      invariant flattened == Flat(days[..d])
    {
      flattened := PushDay(flattened, days[d]);
      FlatSnoc(days, d);
    }
    TakeAll(days);
  }

  /** The inner `forEach` over one day's temperature readings, pushing one entry each. */
  method PushDay(before: seq<HourEntry>, day: DayPrediction) returns (flattened: seq<HourEntry>)
    ensures flattened == before + DayHours(day)
  {
    flattened := before;
    var dateStr := DatePart(day.fecha);
    ghost var hours := DayHours(day);
    for k := 0 to |day.temperatura|
      invariant flattened == before + hours[..k]
    {
      var entry := MakeHour(day, dateStr, day.temperatura[k]);
      assert entry == hours[k];
      TakeSnoc(hours, k);
      flattened := flattened + [entry];
    }
    TakeAll(hours);
  }

  lemma FlatSnoc(days: seq<DayPrediction>, d: nat)
    requires d < |days|
    ensures Flat(days[..d + 1]) == Flat(days[..d]) + DayHours(days[d])
  {
    assert days[..d + 1][..d] == days[..d];
  }

  /** `hourlyData`: flatten, then sort by timestamp. */
  method ComputeHourlyData(data: WeatherData) returns (hourly: seq<HourEntry>)
    ensures hourly == HourlyData(data)
  {
    if data.dia.None? {
      return [];
    }
    var flattened := Flatten(data.dia.value);
    hourly := SortBy(flattened, DateTimeKey);
  }

  /** The number of temperature readings over all days. */
  function TemperatureCount(days: seq<DayPrediction>): nat
  {
    if |days| == 0 then 0 else TemperatureCount(days[..|days| - 1]) + |days[|days| - 1].temperatura|
  }

  /** There is one flattened entry per temperature reading. */
  lemma {:induction false} FlatLength(days: seq<DayPrediction>)
    ensures |Flat(days)| == TemperatureCount(days)
    decreases |days|
  {
    if |days| > 0 {
      FlatLength(days[..|days| - 1]);
    }
  }

  /** Every flattened entry is the hour built for one temperature reading of one day. */
  lemma {:induction false} FlatOrigin(days: seq<DayPrediction>, j: int)
    requires 0 <= j < |Flat(days)|
    ensures exists d, i :: 0 <= d < |days| && 0 <= i < |DayHours(days[d])| && Flat(days)[j] == DayHours(days[d])[i]
    decreases |days|
  {
    var init, last := days[..|days| - 1], days[|days| - 1];
    var front, hours := Flat(init), DayHours(last);
    assert Flat(days) == front + hours;
    AppendIndex(front, hours, j);
    if j < |front| {
      FlatOrigin(init, j);
      var d, i :| 0 <= d < |init| && 0 <= i < |DayHours(init[d])| && front[j] == DayHours(init[d])[i];
      assert init[d] == days[d];
    } else {
      assert days[|days| - 1] == last;
    }
  }

  /** The hourly list: empty without `prediccion.dia`; otherwise one entry per temperature
      reading, a permutation of the flattened entries, in non-decreasing timestamp order. */
  lemma HourlyDataShape(data: WeatherData)
    ensures data.dia.None? ==> HourlyData(data) == []
    ensures data.dia.Some? ==>
      && |HourlyData(data)| == TemperatureCount(data.dia.value)
      && multiset(HourlyData(data)) == multiset(Flat(data.dia.value))
      && SortedBy(HourlyData(data), DateTimeKey)
  {
    if data.dia.Some? {
      FlatLength(data.dia.value);
    }
  }

  /** Sunrise, sunset and the rain probability are the same for every hour of a day: the
      day's own, and its first `probPrecipitacion` value or `"0"`. */
  lemma DayFieldsShared(day: DayPrediction)
    ensures forall i :: 0 <= i < |DayHours(day)| ==>
      && DayHours(day)[i].orto == day.orto
      && DayHours(day)[i].ocaso == day.ocaso
      && DayHours(day)[i].probPrecip
         == (if |day.probPrecipitacion| > 0 && day.probPrecipitacion[0].value != ""
             then day.probPrecipitacion[0].value else "0")
      && DayHours(day)[i].temp == day.temperatura[i].value
  {
  }

  // ---------------------------------------------------------------------------------------
  // The current hour and the next twelve

  /** `!isAfter(startOfHour(now), parseISO(h.dateTime))`: the entry is not before the start
      of the hour. `toTime` stands for `parseISO`; `None` is an invalid date, which no
      comparison puts before anything. */
  function NotBefore(hourStart: int, toTime: string -> Option<int>): HourEntry -> bool
  {
    (h: HourEntry) => var t := toTime(h.dateTime); t.None? || hourStart <= t.value
  }

  /** The `currentEntry` memo: the first entry not before the hour, else the first entry. */
  function CurrentEntry(hourly: seq<HourEntry>, hourStart: int, toTime: string -> Option<int>): Option<HourEntry>
  {
    if |hourly| == 0 then None
    else
      match Find(hourly, NotBefore(hourStart, toTime))
      case Some(h) => Some(h)
      case None => Some(hourly[0])
  }

  function SameDateTime(dateTime: string): HourEntry -> bool
  {
    (h: HourEntry) => h.dateTime == dateTime
  }

  /** The `next12Hours` memo: from the first entry with the current entry's timestamp, at
      most twelve entries. */
  function Next12Hours(hourly: seq<HourEntry>, current: Option<HourEntry>): seq<HourEntry>
  {
    if |hourly| == 0 || current.None? then []
    else
      var currentIndex := FindIndex(hourly, SameDateTime(current.value.dateTime));
      Slice(hourly, currentIndex, currentIndex + 12)
  }

  /** Where the current entry sits: the first index not before the hour, or 0. */
  ghost function CurrentIndex(hourly: seq<HourEntry>, hourStart: int, toTime: string -> Option<int>): nat
  {
    var i := FindIndex(hourly, NotBefore(hourStart, toTime));
    if i == -1 then 0 else i
  }

  /** An empty list has no current entry and an empty window. */
  lemma EmptyHourly(hourStart: int, toTime: string -> Option<int>, current: Option<HourEntry>)
    ensures CurrentEntry([], hourStart, toTime) == None
    ensures Next12Hours([], current) == []
  {
  }

  /** On a non-empty list the current entry is the one at `CurrentIndex`: every entry before
      it is strictly before the hour, and it is not before the hour unless every entry is.
      The window starts at that index, its head is the current entry, and it holds the
      following entries, at most twelve of them. */
  lemma CurrentWindow(hourly: seq<HourEntry>, hourStart: int, toTime: string -> Option<int>)
    requires |hourly| > 0
    ensures var c := CurrentEntry(hourly, hourStart, toTime);
      var ci := CurrentIndex(hourly, hourStart, toTime);
      var w := Next12Hours(hourly, c);
      && ci < |hourly| && c == Some(hourly[ci])
      && (forall k :: 0 <= k < ci ==>
            toTime(hourly[k].dateTime).Some? && toTime(hourly[k].dateTime).value < hourStart)
      && ((exists k :: 0 <= k < |hourly| && NotBefore(hourStart, toTime)(hourly[k]))
          ==> NotBefore(hourStart, toTime)(hourly[ci]))
      && ((forall k :: 0 <= k < |hourly| ==> !NotBefore(hourStart, toTime)(hourly[k])) ==> ci == 0)
      && w == hourly[ci..if ci + 12 <= |hourly| then ci + 12 else |hourly|]
      && 1 <= |w| <= 12 && w[0] == hourly[ci]
  {
    var p := NotBefore(hourStart, toTime);
    var ci := CurrentIndex(hourly, hourStart, toTime);
    var c := hourly[ci];
    var q := SameDateTime(c.dateTime);
    assert q(hourly[ci]);
    var j := FindIndex(hourly, q);
    assert j != -1;
    if FindIndex(hourly, p) != -1 {
      forall k | 0 <= k < ci ensures hourly[k].dateTime != c.dateTime {
        assert !p(hourly[k]) && p(c);
      }
    }
    assert j == ci;
    var e := if ci + 12 <= |hourly| then ci + 12 else |hourly|;
    var w := Slice(hourly, ci, ci + 12);
    assert w == hourly[ci..e];
  }
}
