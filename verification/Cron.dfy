/** The graphical cron editor: configurations, the text they print to, and the text they are read from. */
module Cron {
  import opened Wrappers
  import opened Text

  datatype FieldMode = AnyValue | Step | Specific | Range

  datatype FieldConfig = FieldConfig(mode: FieldMode, step: int, specific: seq<int>, rangeStart: int, rangeEnd: int)

  datatype Bounds = Bounds(min: nat, max: nat)

  type FieldBounds = b: Bounds | b.min <= b.max witness Bounds(0, 0)

  datatype CustomFields = CustomFields(second: FieldConfig, minute: FieldConfig, hour: FieldConfig,
                                       day: FieldConfig, month: FieldConfig, weekday: FieldConfig)

  datatype CronMode = EveryNSeconds | EveryNMinutes | Hourly | Daily | Weekly | Custom

  datatype CronConfig = CronConfig(mode: CronMode, everyNSeconds: int, everyNMinutes: int, hourlyMinute: int,
                                   dailyHour: int, dailyMinute: int, weeklyHour: int, weeklyMinute: int,
                                   weeklyDay: int, customFields: CustomFields)

  const SIXTY: FieldBounds := Bounds(0, 59)
  const HOURS: FieldBounds := Bounds(0, 23)
  const DAYS: FieldBounds := Bounds(1, 31)
  const MONTHS: FieldBounds := Bounds(1, 12)
  const WEEKDAYS: FieldBounds := Bounds(0, 6)

  function DefaultField(min: int): FieldConfig {
    FieldConfig(AnyValue, 1, [], min, min)
  }

  const DEFAULT_FIELDS := CustomFields(DefaultField(0), DefaultField(0), DefaultField(0),
                                       DefaultField(1), DefaultField(1), DefaultField(0))
  const DEFAULT_CONFIG := CronConfig(EveryNMinutes, 5, 5, 0, 9, 0, 9, 0, 1, DEFAULT_FIELDS)

  // ---------------------------------------------------------------- printing

  function Clamp(value: int, lo: int, hi: int): int {
    var raised := if value < lo then lo else value;
    if hi < raised then hi else raised
  }

  predicate Sorted(xs: seq<int>) {
    forall i, j :: 0 <= i < j < |xs| ==> xs[i] <= xs[j]
  }

  function Insert(x: int, xs: seq<int>): (r: seq<int>)
    requires Sorted(xs)
    ensures Sorted(r) && |r| == |xs| + 1
    ensures forall y :: y in r <==> y == x || y in xs
  {
    if xs == [] then [x]
    else if x <= xs[0] then [x] + xs
    else
      var rest := Insert(x, xs[1..]);
      assert forall j :: 0 <= j < |rest| ==> rest[j] in rest;
      [xs[0]] + rest
  }

  function Sort(xs: seq<int>): (r: seq<int>)
    ensures Sorted(r) && |r| == |xs|
    ensures forall y :: y in r <==> y in xs
  {
    if xs == [] then [] else Insert(xs[0], Sort(xs[1..]))
  }

  function ClampAll(xs: seq<int>, b: FieldBounds): (r: seq<int>)
    ensures |r| == |xs| && forall i :: 0 <= i < |xs| ==> r[i] == Clamp(xs[i], b.min, b.max)
  {
    if xs == [] then [] else [Clamp(xs[0], b.min, b.max)] + ClampAll(xs[1..], b)
  }

  function PrintAll(xs: seq<int>): (r: seq<string>)
    requires forall i :: 0 <= i < |xs| ==> 0 <= xs[i]
    ensures |r| == |xs| && forall i :: 0 <= i < |xs| ==> r[i] == Print(xs[i])
  {
    if xs == [] then [] else [Print(xs[0])] + PrintAll(xs[1..])
  }

  /** The values a "specific" field lists, as printed: clamped and sorted. */
  function Listed(f: FieldConfig, b: FieldBounds): (r: seq<int>)
    ensures Sorted(r) && |r| == |f.specific|
    ensures forall i :: 0 <= i < |r| ==> b.min <= r[i] <= b.max
    ensures forall x :: x in r <==> exists k :: 0 <= k < |f.specific| && Clamp(f.specific[k], b.min, b.max) == x
  {
    var clamped := ClampAll(f.specific, b);
    var r := Sort(clamped);
    assert forall i :: 0 <= i < |r| ==> r[i] in clamped;
    r
  }

  function StepOf(f: FieldConfig, b: FieldBounds): nat {
    Clamp(f.step, 1, b.max - b.min + 1)
  }

  function BuildField(f: FieldConfig, b: FieldBounds): string {
    match f.mode
    case AnyValue => "*"
    case Step => "*/" + Print(StepOf(f, b))
    case Range =>
      var start := Clamp(f.rangeStart, b.min, b.max);
      var end := Clamp(f.rangeEnd, b.min, b.max);
      if start <= end then Print(start) + "-" + Print(end) else Print(end) + "-" + Print(start)
    case Specific =>
      if f.specific == [] then "*" else Join(PrintAll(Listed(f, b)), ',')
  }

  function CustomWords(c: CustomFields): (w: seq<string>)
    ensures |w| == 6
  {
    [BuildField(c.second, SIXTY), BuildField(c.minute, SIXTY), BuildField(c.hour, HOURS),
     BuildField(c.day, DAYS), BuildField(c.month, MONTHS), BuildField(c.weekday, WEEKDAYS)]
  }

  /** The blank-separated words of the printed expression. */
  function BuildWords(c: CronConfig): seq<string> {
    match c.mode
    case EveryNSeconds => ["*/" + Print(Clamp(c.everyNSeconds, 1, 59)), "*", "*", "*", "*", "*"]
    case EveryNMinutes => ["*/" + Print(Clamp(c.everyNMinutes, 1, 59)), "*", "*", "*", "*"]
    case Hourly => [Print(Clamp(c.hourlyMinute, 0, 59)), "*", "*", "*", "*"]
    case Daily => [Print(Clamp(c.dailyMinute, 0, 59)), Print(Clamp(c.dailyHour, 0, 23)), "*", "*", "*"]
    case Weekly => [Print(Clamp(c.weeklyMinute, 0, 59)), Print(Clamp(c.weeklyHour, 0, 23)), "*", "*",
                    Print(Clamp(c.weeklyDay, 0, 6))]
    case Custom => CustomWords(c.customFields)
  }

  function Build(c: CronConfig): string {
    Join(BuildWords(c), ' ')
  }

  // ---------------------------------------------------------------- reading

  /** The regular expression `^\*\/(\d+)$`. */
  predicate IsStepText(s: string) {
    |s| > 2 && s[0] == '*' && s[1] == '/' && AllDigits(s[2..])
  }

  /** The regular expression `^(\d+)-(\d+)$`. */
  predicate IsRangeText(s: string) {
    var parts := Split(s, '-');
    |parts| == 2 && IsNumeral(parts[0]) && IsNumeral(parts[1])
  }

  /** The regular expression `^[\d,]+$`. */
  predicate IsListText(s: string) {
    s != "" && forall i :: 0 <= i < |s| ==> IsDigit(s[i]) || s[i] == ','
  }

  /** The parts of a list that are numbers within bounds. */
  function InBounds(parts: seq<string>, b: FieldBounds): seq<int> {
    if parts == [] then []
    else
      var rest := InBounds(parts[1..], b);
      if AllDigits(parts[0]) && b.min <= Value(parts[0]) <= b.max then [Value(parts[0])] + rest else rest
  }

  function ParseField(expr: string, b: FieldBounds): FieldConfig {
    var base := DefaultField(b.min);
    var s := Trim(expr);
    if s == "" || s == "*" then base
    else if IsStepText(s) then base.(mode := Step, step := Clamp(Value(s[2..]), 1, b.max - b.min + 1))
    else if IsRangeText(s) then
      var parts := Split(s, '-');
      base.(mode := Range, rangeStart := Clamp(Value(parts[0]), b.min, b.max),
      rangeEnd := Clamp(Value(parts[1]), b.min, b.max))
    else
      var listed := if IsListText(s) then InBounds(Split(s, ','), b) else [];
      if listed != [] then base.(mode := Specific, specific := listed)
      else if IsNumeral(s) then base.(mode := Specific, specific := [Clamp(Value(s), b.min, b.max)])
      else base
  }

  function ParseCustom(parts: seq<string>): CustomFields
    requires |parts| == 5 || |parts| == 6
  {
    var k := |parts| - 5;
    CustomFields(if k == 1 then ParseField(parts[0], SIXTY) else DefaultField(0).(mode := Specific, specific := [0]),
                 ParseField(parts[k], SIXTY), ParseField(parts[k + 1], HOURS), ParseField(parts[k + 2], DAYS),
                 ParseField(parts[k + 3], MONTHS), ParseField(parts[k + 4], WEEKDAYS))
  }

  function ParseStep(expr: string, lo: int, hi: int): Option<int> {
    var s := Trim(expr);
    if IsStepText(s) && lo <= Value(s[2..]) <= hi then Some(Value(s[2..])) else None
  }

  /** Recognises a preset in the five fields minute, hour, day, month and weekday. */
  function ParsePreset(p: seq<string>): Option<CronConfig>
    requires |p| == 5
  {
    var minutes := ParseStep(p[0], 1, 59);
    if minutes.Some? && p[1..] == ["*", "*", "*", "*"] then
      Some(DEFAULT_CONFIG.(mode := EveryNMinutes, everyNMinutes := minutes.value))
    else if IsNumeral(p[0]) && p[1..] == ["*", "*", "*", "*"] then
      Some(DEFAULT_CONFIG.(mode := Hourly, hourlyMinute := Value(p[0])))
    else if IsNumeral(p[0]) && IsNumeral(p[1]) && p[2..] == ["*", "*", "*"] then
      Some(DEFAULT_CONFIG.(mode := Daily, dailyMinute := Value(p[0]), dailyHour := Value(p[1])))
    else if IsNumeral(p[0]) && IsNumeral(p[1]) && p[2..4] == ["*", "*"] && IsNumeral(p[4]) then
      Some(DEFAULT_CONFIG.(mode := Weekly, weeklyMinute := Value(p[0]), weeklyHour := Value(p[1]),
           weeklyDay := Value(p[4])))
    else None
  }

  function ParseWords(p: seq<string>, preferCustom: bool): CronConfig {
    var custom := DEFAULT_CONFIG.(mode := Custom);
    if |p| != 5 && |p| != 6 then custom
    else if preferCustom then custom.(customFields := ParseCustom(p))
    else if |p| == 6 then
      var seconds := ParseStep(p[0], 1, 59);
      if seconds.Some? && p[1..] == ["*", "*", "*", "*", "*"] then
        DEFAULT_CONFIG.(mode := EveryNSeconds, everyNSeconds := seconds.value)
      else if (p[0] == "0" || p[0] == "00") && ParsePreset(p[1..]).Some? then ParsePreset(p[1..]).value
      else custom.(customFields := ParseCustom(p))
    else if ParsePreset(p).Some? then ParsePreset(p).value
    else custom.(customFields := ParseCustom(p))
  }

  function Parse(expr: string, preferCustom: bool): CronConfig {
    ParseWords(Words(expr), preferCustom)
  }

  // ---------------------------------------------------------------- firing times

  datatype Instant = Instant(second: nat, minute: nat, hour: nat, day: nat, month: nat, weekday: nat)

  predicate InCalendar(t: Instant) {
    t.second <= 59 && t.minute <= 59 && t.hour <= 23 && 1 <= t.day <= 31 && 1 <= t.month <= 12 && t.weekday <= 6
  }

  /** What one element of a field's comma-separated list stands for. */
  predicate ElementMatches(e: string, v: nat, b: FieldBounds) {
    || e == "*"
    || (IsStepText(e) && Value(e[2..]) > 0 && (v - b.min) % Value(e[2..]) == 0)
    || (IsRangeText(e) && Value(Split(e, '-')[0]) <= v <= Value(Split(e, '-')[1]))
    || (IsNumeral(e) && Value(e) == v)
  }

  predicate FieldMatches(text: string, v: nat, b: FieldBounds) {
    exists e :: e in Split(text, ',') && ElementMatches(e, v, b)
  }

  /** Whether the texts of the day and weekday fields make either of them sufficient. */
  type DayRule = (string, string) -> bool

  /** The rule of the crontab utility of IEEE Std 1003.1-2017: either suffices when neither is an asterisk. */
  const POSIX_DAY_RULE: DayRule := (day, weekday) => day != "*" && weekday != "*"

  predicate FiresFields(p: seq<string>, t: Instant, rule: DayRule)
    requires |p| == 5
  {
    var day := FieldMatches(p[2], t.day, DAYS);
    var weekday := FieldMatches(p[4], t.weekday, WEEKDAYS);
    && FieldMatches(p[0], t.minute, SIXTY)
    && FieldMatches(p[1], t.hour, HOURS)
    && FieldMatches(p[3], t.month, MONTHS)
    && (if rule(p[2], p[4]) then day || weekday else day && weekday)
  }

  /** Five fields fire at second zero; six fields start with the seconds. */
  predicate FiresWords(p: seq<string>, t: Instant, rule: DayRule) {
    if |p| == 5 then t.second == 0 && FiresFields(p, t, rule)
    else |p| == 6 && FieldMatches(p[0], t.second, SIXTY) && FiresFields(p[1..], t, rule)
  }

  predicate Fires(expr: string, t: Instant, rule: DayRule) {
    FiresWords(Words(expr), t, rule)
  }

  /** What a field configuration means, without going through text. */
  predicate FieldAllows(f: FieldConfig, v: nat, b: FieldBounds) {
    match f.mode
    case AnyValue => true
    case Step => StepOf(f, b) > 0 && (v - b.min) % StepOf(f, b) == 0
    case Range =>
      var start := Clamp(f.rangeStart, b.min, b.max);
      var end := Clamp(f.rangeEnd, b.min, b.max);
      start <= v <= end || end <= v <= start
    case Specific =>
      f.specific == [] || exists k :: 0 <= k < |f.specific| && Clamp(f.specific[k], b.min, b.max) == v
  }

  /** What a configuration means, without going through text. */
  predicate ConfigFires(c: CronConfig, t: Instant, rule: DayRule) {
    match c.mode
    case EveryNSeconds => var n := Clamp(c.everyNSeconds, 1, 59); n > 0 && t.second % n == 0
    case EveryNMinutes => var n := Clamp(c.everyNMinutes, 1, 59); t.second == 0 && n > 0 && t.minute % n == 0
    case Hourly => t.second == 0 && t.minute == Clamp(c.hourlyMinute, 0, 59)
    case Daily => t.second == 0 && t.minute == Clamp(c.dailyMinute, 0, 59) && t.hour == Clamp(c.dailyHour, 0, 23)
    case Weekly =>
      && t.second == 0 && t.minute == Clamp(c.weeklyMinute, 0, 59)
      && t.hour == Clamp(c.weeklyHour, 0, 23) && t.weekday == Clamp(c.weeklyDay, 0, 6)
    case Custom =>
      var f := c.customFields;
      var day := FieldAllows(f.day, t.day, DAYS);
      var weekday := FieldAllows(f.weekday, t.weekday, WEEKDAYS);
      && FieldAllows(f.second, t.second, SIXTY) && FieldAllows(f.minute, t.minute, SIXTY)
      && FieldAllows(f.hour, t.hour, HOURS) && FieldAllows(f.month, t.month, MONTHS)
      && (if rule(BuildField(f.day, DAYS), BuildField(f.weekday, WEEKDAYS)) then day || weekday else day && weekday)
  }
}
