/** Printing a cron configuration, reading it back and printing it again keeps the firing times. */
module CronRoundTrip {
  import opened Wrappers
  import opened Text
  import opened Cron

  lemma SplitNone(s: string, sep: char)
    requires sep !in s
    ensures Split(s, sep) == [s]
  {
    assert s + "" == s;
    SplitPrefix(s, "", sep);
  }

  lemma NumeralText(s: string)
    requires IsNumeral(s)
    ensures IsWord(s) && s != "*" && Trim(s) == s && !IsStepText(s) && !IsRangeText(s) && IsListText(s)
    ensures Split(s, ',') == [s] && Split(s, '-') == [s]
  {
    assert Free(s, IsSpace);
    SplitNone(s, ',');
    SplitNone(s, '-');
  }

  lemma StepText(n: nat)
    ensures var s := "*/" + Print(n);
            IsWord(s) && Trim(s) == s && IsStepText(s) && Value(s[2..]) == n && Split(s, ',') == [s] && !IsNumeral(s)
            && !IsRangeText(s)
  {
    var s := "*/" + Print(n);
    assert s[2..] == Print(n);
    assert Free(s, IsSpace);
    SplitNone(s, ',');
    SplitNone(s, '-');
  }

  lemma RangeChars(x: string, y: string)
    requires IsNumeral(x) && IsNumeral(y)
    ensures IsWord(x + "-" + y) && ',' !in x + "-" + y
  {
  }

  lemma RangeText(m: nat, n: nat)
    ensures var s := Print(m) + "-" + Print(n);
            IsWord(s) && Trim(s) == s && IsRangeText(s) && Split(s, '-') == [Print(m), Print(n)] && Split(s, ',') == [s]
            && !IsStepText(s) && !IsNumeral(s)
  {
    var parts := [Print(m), Print(n)];
    var s := Print(m) + "-" + Print(n);
    assert s == parts[0] + ['-'] + Join(parts[1..], '-');
    SplitJoin(parts, '-');
    assert s[|parts[0]|] == '-' && IsDigit(s[0]);
    RangeChars(parts[0], parts[1]);
    SplitNone(s, ',');
  }

  lemma ListChars(parts: seq<string>)
    requires forall i :: 0 <= i < |parts| ==> IsNumeral(parts[i])
    ensures forall i :: 0 <= i < |Join(parts, ',')| ==> IsDigit(Join(parts, ',')[i]) || Join(parts, ',')[i] == ','
    ensures parts != [] ==> Join(parts, ',') != "" && IsDigit(Join(parts, ',')[0])
  {
  }

  lemma ListText(xs: seq<int>)
    requires xs != [] && forall i :: 0 <= i < |xs| ==> 0 <= xs[i]
    ensures var s := Join(PrintAll(xs), ',');
            IsWord(s) && Trim(s) == s && IsListText(s) && Split(s, ',') == PrintAll(xs)
            && !IsStepText(s) && !IsRangeText(s)
  {
    hide Print, Value;
    var s := Join(PrintAll(xs), ',');
    ListChars(PrintAll(xs));
    SplitJoin(PrintAll(xs), ',');
    assert Free(s, IsSpace);
    SplitNone(s, '-');
  }

  lemma InBoundsPrinted(xs: seq<int>, b: FieldBounds)
    requires forall i :: 0 <= i < |xs| ==> b.min <= xs[i] <= b.max
    ensures InBounds(PrintAll(xs), b) == xs
  {
  }

  lemma SortSorted(xs: seq<int>)
    requires Sorted(xs)
    ensures Sort(xs) == xs
  {
  }

  /** A field holding a sorted list within bounds prints that list. */
  lemma ListedExact(f: FieldConfig, b: FieldBounds)
    requires Sorted(f.specific) && forall i :: 0 <= i < |f.specific| ==> b.min <= f.specific[i] <= b.max
    ensures Listed(f, b) == f.specific
  {
    assert ClampAll(f.specific, b) == f.specific;
    SortSorted(f.specific);
  }

  /** A word that field parsing and printing give back unchanged. */
  predicate Canonical(w: string, b: FieldBounds) {
    IsWord(w) && BuildField(ParseField(w, b), b) == w
  }

  lemma RangeReproduced(m: nat, n: nat, b: FieldBounds)
    requires b.min <= m <= n <= b.max
    ensures Canonical(Print(m) + "-" + Print(n), b)
  {
    hide Print, Value, Trim, Split;
    RangeText(m, n);
    var s := Print(m) + "-" + Print(n);
    assert s != "*" && s != "" && Value(Print(m)) == m && Value(Print(n)) == n;
  }

  lemma ListReproduced(xs: seq<int>, b: FieldBounds)
    requires xs != [] && Sorted(xs) && forall i :: 0 <= i < |xs| ==> b.min <= xs[i] <= b.max
    ensures Canonical(Join(PrintAll(xs), ','), b)
  {
    hide Print, Value, Trim, Split, Join;
    ListText(xs);
    InBoundsPrinted(xs, b);
    ListedExact(DefaultField(b.min).(mode := Specific, specific := xs), b);
  }

  lemma StepReproduced(n: nat, b: FieldBounds)
    requires 1 <= n <= b.max - b.min + 1
    ensures Canonical("*/" + Print(n), b)
  {
    hide Print, Value, Trim, Split, Join;
    StepText(n);
  }

  lemma AnyReproduced(b: FieldBounds)
    ensures Canonical("*", b)
  {
  }

  /** Field text is reproduced exactly. */
  lemma FieldReproduced(f: FieldConfig, b: FieldBounds)
    ensures Canonical(BuildField(f, b), b)
  {
    hide Canonical, Print, Join;
    match f.mode {
      case AnyValue => AnyReproduced(b);
      case Step => StepReproduced(StepOf(f, b), b);
      case Range =>
        var start := Clamp(f.rangeStart, b.min, b.max);
        var end := Clamp(f.rangeEnd, b.min, b.max);
        if start <= end { RangeReproduced(start, end, b); } else { RangeReproduced(end, start, b); }
      case Specific =>
        if f.specific == [] { AnyReproduced(b); } else { ListReproduced(Listed(f, b), b); }
    }
  }

  lemma SingleMatches(text: string, v: nat, b: FieldBounds)
    requires Split(text, ',') == [text]
    ensures FieldMatches(text, v, b) <==> ElementMatches(text, v, b)
  {
  }

  lemma AnyMatches(v: nat, b: FieldBounds)
    ensures FieldMatches("*", v, b)
  {
    SplitNone("*", ',');
    SingleMatches("*", v, b);
  }

  lemma ListMatches(xs: seq<int>, v: nat, b: FieldBounds)
    requires xs != [] && forall i :: 0 <= i < |xs| ==> 0 <= xs[i]
    ensures FieldMatches(Join(PrintAll(xs), ','), v, b) <==> v in xs
  {
    ListText(xs);
    var parts := PrintAll(xs);
    forall i | 0 <= i < |xs|
      ensures ElementMatches(parts[i], v, b) <==> xs[i] == v
    {
      NumeralText(parts[i]);
      assert parts[i] != "*";
    }
    if v in xs {
      var i :| 0 <= i < |xs| && xs[i] == v;
      assert parts[i] in parts;
    }
  }

  /** The printed text of a field matches exactly the values its configuration allows. */
  lemma FieldMeaning(f: FieldConfig, b: FieldBounds, v: nat)
    requires b.min <= v <= b.max
    ensures FieldMatches(BuildField(f, b), v, b) <==> FieldAllows(f, v, b)
  {
    var text := BuildField(f, b);
    match f.mode {
      case AnyValue =>
        AnyMatches(v, b);
      case Step =>
        StepText(StepOf(f, b));
        SingleMatches(text, v, b);
      case Range =>
        var start := Clamp(f.rangeStart, b.min, b.max);
        var end := Clamp(f.rangeEnd, b.min, b.max);
        RangeText(start, end);
        RangeText(end, start);
        SingleMatches(text, v, b);
      case Specific =>
        if f.specific == [] {
          AnyMatches(v, b);
        } else {
          ListMatches(Listed(f, b), v, b);
          assert v in Listed(f, b) <==> FieldAllows(f, v, b);
        }
    }
  }

  lemma NumeralMatches(n: nat, v: nat, b: FieldBounds)
    ensures FieldMatches(Print(n), v, b) <==> v == n
  {
    NumeralText(Print(n));
    SingleMatches(Print(n), v, b);
    assert Print(n) != "*";
  }

  lemma StepMatches(n: nat, v: nat, b: FieldBounds)
    requires b.min <= v
    ensures FieldMatches("*/" + Print(n), v, b) <==> n > 0 && (v - b.min) % n == 0
  {
    StepText(n);
    SingleMatches("*/" + Print(n), v, b);
  }

  /** What a canonical word looks like to the preset recogniser. */
  predicate Exact(w: string, b: FieldBounds) {
    && Trim(w) == w
    && (IsStepText(w) ==> w == "*/" + Print(Value(w[2..])))
    && (IsNumeral(w) ==> b.min <= Value(w) <= b.max && w == Print(Value(w)))
  }

  lemma CanonicalExact(w: string, b: FieldBounds)
    requires Canonical(w, b)
    ensures Exact(w, b)
  {
    TrimWord(w);
    if IsStepText(w) {
      var n: nat := Clamp(Value(w[2..]), 1, b.max - b.min + 1);
      StepText(n);
      assert w[2..] == Print(n);
    }
    if IsNumeral(w) {
      NumeralText(w);
      var x := Clamp(Value(w), b.min, b.max);
      var f := DefaultField(b.min).(mode := Specific, specific := [x]);
      assert InBounds([w], b) == if b.min <= Value(w) <= b.max then [Value(w)] else [];
      assert ParseField(w, b) == f;
      ListedExact(f, b);
      assert PrintAll([x]) == [Print(x)];
    }
  }

  predicate CanonicalFive(w: seq<string>)
    requires |w| == 5
  {
    Canonical(w[0], SIXTY) && Canonical(w[1], HOURS) && Canonical(w[2], DAYS) && Canonical(w[3], MONTHS)
    && Canonical(w[4], WEEKDAYS)
  }

  predicate CanonicalWords(w: seq<string>) {
    if |w| == 5 then CanonicalFive(w) else |w| == 6 && Canonical(w[0], SIXTY) && CanonicalFive(w[1..])
  }

  lemma PresetReproduced(w: seq<string>)
    requires |w| == 5 && Exact(w[0], SIXTY) && Exact(w[1], HOURS) && Exact(w[4], WEEKDAYS)
    requires ParsePreset(w).Some?
    ensures BuildWords(ParsePreset(w).value) == w
  {
    hide BuildField, CustomWords, Print, Value, Trim;
    assert w == [w[0]] + w[1..] && w == w[..2] + w[2..] && w == w[..2] + w[2..4] + w[4..];
    assert w[1..][3] == w[4] && w[1..][0] == w[1];
  }

  lemma ZeroField()
    ensures BuildField(DefaultField(0).(mode := Specific, specific := [0]), SIXTY) == "0"
  {
  }

  lemma NoDoubleZero(w: string)
    requires Exact(w, SIXTY)
    ensures w != "00"
  {
  }

  lemma FiveReproduced(w: seq<string>)
    requires |w| == 5 && CanonicalFive(w)
    ensures CustomWords(ParseCustom(w)) == ["0"] + w
  {
    hide BuildField, ParseField, Print, Value, Trim, Listed;
    ZeroField();
  }

  lemma SixReproduced(w: seq<string>)
    requires |w| == 6 && Canonical(w[0], SIXTY) && CanonicalFive(w[1..])
    ensures CustomWords(ParseCustom(w)) == w
  {
  }

  /** Printing what was read gives the same words back, up to a leading seconds word "0" gained or dropped. */
  lemma WordsReproduced(w: seq<string>, preferCustom: bool)
    requires CanonicalWords(w)
    ensures var w' := BuildWords(ParseWords(w, preferCustom));
            w' == w || (|w| == 6 && w[0] == "0" && w' == w[1..]) || (|w| == 5 && w' == ["0"] + w)
  {
    hide BuildField, ParseField, Print, Value, Trim, CustomWords, ParseCustom, ParsePreset, Canonical, Split,
         FieldMatches;
    if |w| == 5 {
      FiveReproduced(w);
      CanonicalExact(w[0], SIXTY);
      CanonicalExact(w[1], HOURS);
      CanonicalExact(w[4], WEEKDAYS);
      if ParsePreset(w).Some? { PresetReproduced(w); }
    } else {
      SixReproduced(w);
      var m := w[1..];
      CanonicalExact(w[0], SIXTY);
      NoDoubleZero(w[0]);
      CanonicalExact(m[0], SIXTY);
      CanonicalExact(m[1], HOURS);
      CanonicalExact(m[4], WEEKDAYS);
      if ParsePreset(m).Some? { PresetReproduced(m); }
      assert w == [w[0]] + w[1..];
    }
  }

  lemma NumeralCanonical(n: nat, b: FieldBounds)
    requires b.min <= n <= b.max
    ensures Canonical(Print(n), b)
  {
    hide Canonical, Print;
    ListReproduced([n], b);
    assert PrintAll([n]) == [Print(n)] && Join([Print(n)], ',') == Print(n);
  }

  lemma PresetCanonical(c: CronConfig)
    requires c.mode != Custom
    ensures CanonicalWords(BuildWords(c))
  {
    hide BuildField, ParseField, Print, Canonical;
    AnyReproduced(SIXTY); AnyReproduced(HOURS); AnyReproduced(DAYS); AnyReproduced(MONTHS); AnyReproduced(WEEKDAYS);
    StepReproduced(Clamp(c.everyNSeconds, 1, 59), SIXTY);
    StepReproduced(Clamp(c.everyNMinutes, 1, 59), SIXTY);
    NumeralCanonical(Clamp(c.hourlyMinute, 0, 59), SIXTY);
    NumeralCanonical(Clamp(c.dailyMinute, 0, 59), SIXTY);
    NumeralCanonical(Clamp(c.dailyHour, 0, 23), HOURS);
    NumeralCanonical(Clamp(c.weeklyMinute, 0, 59), SIXTY);
    NumeralCanonical(Clamp(c.weeklyHour, 0, 23), HOURS);
    NumeralCanonical(Clamp(c.weeklyDay, 0, 6), WEEKDAYS);
  }

  lemma CustomCanonical(f: CustomFields)
    ensures CanonicalWords(CustomWords(f))
  {
    FieldReproduced(f.second, SIXTY);
    FieldReproduced(f.minute, SIXTY);
    FieldReproduced(f.hour, HOURS);
    FieldReproduced(f.day, DAYS);
    FieldReproduced(f.month, MONTHS);
    FieldReproduced(f.weekday, WEEKDAYS);
  }

  lemma CanonicalAreWords(w: seq<string>)
    requires CanonicalWords(w)
    ensures forall p :: p in w ==> IsWord(p)
  {
  }

  lemma BuiltCanonical(c: CronConfig)
    ensures CanonicalWords(BuildWords(c))
    ensures Words(Build(c)) == BuildWords(c)
  {
    if c.mode == Custom { CustomCanonical(c.customFields); } else { PresetCanonical(c); }
    CanonicalAreWords(BuildWords(c));
    WordsJoin(BuildWords(c));
  }

  /** An asterisk in either day field never makes the other field sufficient. */
  ghost predicate StarNeutral(rule: DayRule) {
    && (forall d :: !rule(d, "*"))
    && (forall w :: !rule("*", w))
  }

  /** The standard's rule is one of them. */
  lemma PosixNeutral()
    ensures StarNeutral(POSIX_DAY_RULE)
  {
  }

  lemma FieldsAllAny(t: Instant)
    ensures FieldMatches("*", t.minute, SIXTY) && FieldMatches("*", t.hour, HOURS) && FieldMatches("*", t.day, DAYS)
            && FieldMatches("*", t.month, MONTHS) && FieldMatches("*", t.weekday, WEEKDAYS)
  {
    AnyMatches(t.minute, SIXTY); AnyMatches(t.hour, HOURS); AnyMatches(t.day, DAYS);
    AnyMatches(t.month, MONTHS); AnyMatches(t.weekday, WEEKDAYS);
  }

  lemma PresetMeans(c: CronConfig, t: Instant, rule: DayRule)
    requires c.mode != Custom && InCalendar(t) && StarNeutral(rule)
    ensures FiresWords(BuildWords(c), t, rule) <==> ConfigFires(c, t, rule)
  {
    FieldsAllAny(t);
    var w := BuildWords(c);
    match c.mode {
      case EveryNSeconds =>
        assert w[1..] == ["*", "*", "*", "*", "*"];
        StepMatches(Clamp(c.everyNSeconds, 1, 59), t.second, SIXTY);
      case EveryNMinutes => StepMatches(Clamp(c.everyNMinutes, 1, 59), t.minute, SIXTY);
      case Hourly => NumeralMatches(Clamp(c.hourlyMinute, 0, 59), t.minute, SIXTY);
      case Daily =>
        NumeralMatches(Clamp(c.dailyMinute, 0, 59), t.minute, SIXTY);
        NumeralMatches(Clamp(c.dailyHour, 0, 23), t.hour, HOURS);
      case Weekly =>
        NumeralMatches(Clamp(c.weeklyMinute, 0, 59), t.minute, SIXTY);
        NumeralMatches(Clamp(c.weeklyHour, 0, 23), t.hour, HOURS);
        NumeralMatches(Clamp(c.weeklyDay, 0, 6), t.weekday, WEEKDAYS);
    }
  }

  lemma CustomMeans(c: CronConfig, t: Instant, rule: DayRule)
    requires c.mode == Custom && InCalendar(t)
    ensures FiresWords(BuildWords(c), t, rule) <==> ConfigFires(c, t, rule)
  {
    var f := c.customFields;
    var w := CustomWords(f);
    assert w[1..] == [w[1], w[2], w[3], w[4], w[5]];
    FieldMeaning(f.second, SIXTY, t.second);
    FieldMeaning(f.minute, SIXTY, t.minute);
    FieldMeaning(f.hour, HOURS, t.hour);
    FieldMeaning(f.day, DAYS, t.day);
    FieldMeaning(f.month, MONTHS, t.month);
    FieldMeaning(f.weekday, WEEKDAYS, t.weekday);
  }

  /** The printed expression fires exactly when the configuration says, for every day rule that is neutral to
      asterisks. */
  lemma BuildMeans(c: CronConfig, t: Instant, rule: DayRule)
    requires InCalendar(t) && StarNeutral(rule)
    ensures Fires(Build(c), t, rule) <==> ConfigFires(c, t, rule)
  {
    BuiltCanonical(c);
    if c.mode == Custom { CustomMeans(c, t, rule); } else { PresetMeans(c, t, rule); }
  }

  /** Gaining or dropping a leading seconds word "0" keeps the firing times. */
  lemma LeadingZero(w: seq<string>, t: Instant, rule: DayRule)
    requires |w| == 5
    ensures FiresWords(["0"] + w, t, rule) <==> FiresWords(w, t, rule)
  {
    assert Print(0) == "0";
    NumeralMatches(0, t.second, SIXTY);
    assert (["0"] + w)[1..] == w;
  }

  /** Main result: for every configuration, printing, reading in either manner and printing again
      gives an expression that fires at exactly the same instants. */
  lemma RoundTripFires(c: CronConfig, preferCustom: bool, t: Instant, rule: DayRule)
    ensures Fires(Build(Parse(Build(c), preferCustom)), t, rule) <==> Fires(Build(c), t, rule)
  {
    BuiltCanonical(c);
    var w := BuildWords(c);
    var c' := ParseWords(w, preferCustom);
    BuiltCanonical(c');
    WordsReproduced(w, preferCustom);
    if |w| == 6 && w[0] == "0" {
      assert w == ["0"] + w[1..];
      LeadingZero(w[1..], t, rule);
    }
    if |w| == 5 { LeadingZero(w, t, rule); }
  }

  /** Each preset comes back as itself, with its values clamped. */
  lemma PresetReturns(c: CronConfig)
    requires c.mode != Custom
    ensures var r := Parse(Build(c), false);
            && r.mode == c.mode
            && (c.mode == EveryNSeconds ==> r.everyNSeconds == Clamp(c.everyNSeconds, 1, 59))
            && (c.mode == EveryNMinutes ==> r.everyNMinutes == Clamp(c.everyNMinutes, 1, 59))
            && (c.mode == Hourly ==> r.hourlyMinute == Clamp(c.hourlyMinute, 0, 59))
            && (c.mode == Daily ==> r.dailyMinute == Clamp(c.dailyMinute, 0, 59)
                                    && r.dailyHour == Clamp(c.dailyHour, 0, 23))
            && (c.mode == Weekly ==> r.weeklyMinute == Clamp(c.weeklyMinute, 0, 59)
                                     && r.weeklyHour == Clamp(c.weeklyHour, 0, 23)
                                     && r.weeklyDay == Clamp(c.weeklyDay, 0, 6))
  {
    hide BuildField, CustomWords, Trim, Value, Print, ParseField, Words, Build, Split, Canonical;
    BuiltCanonical(c);
    var w := BuildWords(c);
    match c.mode {
      case EveryNSeconds => StepText(Clamp(c.everyNSeconds, 1, 59));
      case EveryNMinutes => StepText(Clamp(c.everyNMinutes, 1, 59));
      case Hourly => NumeralText(w[0]); assert w[1..] == ["*", "*", "*", "*"];
      case Daily => NumeralText(w[0]); NumeralText(w[1]); assert w[1] != "*" && w[2..] == ["*", "*", "*"];
      case Weekly =>
        NumeralText(w[0]); NumeralText(w[1]); NumeralText(w[4]);
        assert w[1] != "*" && w[4] != "*" && w[2..4] == ["*", "*"] && w[2..][2] == w[4] && w[1..][0] == w[1];
    }
  }

  // ---------------------------------------------------------------- text the editor did not print

  /** A word keeps its meaning when what is printed for it after reading matches the same values. */
  ghost predicate Kept(w: string, b: FieldBounds) {
    forall v: nat | b.min <= v <= b.max :: FieldMatches(BuildField(ParseField(w, b), b), v, b) <==>
      FieldMatches(w, v, b)
  }

  predicate StepKeeps(w: string)
    requires IsStepText(w)
  {
    Value(w[2..]) > 0
  }

  predicate RangeKeeps(w: string, b: FieldBounds)
    requires IsRangeText(w)
  {
    var parts := Split(w, '-');
    Value(parts[0]) <= Value(parts[1]) && Value(parts[0]) <= b.max && b.min <= Value(parts[1])
  }

  /** Some part of a list is a numeral for v. */
  predicate Names(w: string, v: int) {
    exists p :: p in Split(w, ',') && IsNumeral(p) && Value(p) == v
  }

  /** Some part of a list is within bounds, and an empty part, which is read as zero, stands beside a zero. */
  predicate ListKeeps(w: string, b: FieldBounds) {
    var parts := Split(w, ',');
    && (exists p :: p in parts && AllDigits(p) && b.min <= Value(p) <= b.max)
    && (b.min == 0 && "" in parts ==> Names(w, 0))
  }

  predicate MatchesAll(w: string, b: FieldBounds) {
    forall v: nat | b.min <= v <= b.max :: FieldMatches(w, v, b)
  }

  /** When a word keeps its meaning, shape by shape. */
  predicate Keeps(w: string, b: FieldBounds) {
    if IsStepText(w) then StepKeeps(w)
    else if IsRangeText(w) then RangeKeeps(w, b)
    else if IsListText(w) then ListKeeps(w, b)
    else MatchesAll(w, b)
  }

  /** A step larger than the field leaves the same values as the largest one. */
  lemma LargeStep(d: nat, n: nat, span: nat)
    requires d < span && n > 0
    ensures d % (if n < span then n else span) == 0 <==> d % n == 0
  {
  }

  lemma StepElement(w: string, v: nat, b: FieldBounds)
    requires IsStepText(w)
    ensures ElementMatches(w, v, b) <==> Value(w[2..]) > 0 && (v - b.min) % Value(w[2..]) == 0
  {
    SplitNone(w, '-');
    assert !IsNumeral(w) && w != "*" by { assert w[0] == '*' && |w| > 2; }
  }

  lemma StepExact(w: string, b: FieldBounds)
    requires IsStepText(w)
    ensures Kept(w, b) <==> StepKeeps(w)
  {
    hide Print, FieldMatches, BuildField;
    var n, span := Value(w[2..]), b.max - b.min + 1;
    assert Free(w, IsSpace);
    TrimWord(w);
    SplitNone(w, ',');
    var f := ParseField(w, b);
    assert w != "*" && f.mode == Step && StepOf(f, b) == Clamp(n, 1, span);
    forall v: nat | b.min <= v <= b.max
      ensures FieldMatches(w, v, b) <==> n > 0 && (v - b.min) % n == 0
      ensures FieldMatches(BuildField(f, b), v, b) <==> (v - b.min) % Clamp(n, 1, span) == 0
      ensures n > 0 ==> (FieldMatches(BuildField(f, b), v, b) <==> FieldMatches(w, v, b))
    {
      SingleMatches(w, v, b);
      StepElement(w, v, b);
      FieldMeaning(f, b, v);
      if n > 0 { LargeStep(v - b.min, n, span); }
    }
    if n == 0 {
      assert FieldMatches(BuildField(f, b), b.min, b) && !FieldMatches(w, b.min, b);
    }
  }

  lemma RangeExact(w: string, b: FieldBounds)
    requires IsRangeText(w) && !IsStepText(w)
    ensures Kept(w, b) <==> RangeKeeps(w, b)
  {
    hide Print, FieldMatches, BuildField;
    var parts := Split(w, '-');
    var m, n := Value(parts[0]), Value(parts[1]);
    JoinSplit(w, '-');
    assert w == parts[0] + "-" + parts[1];
    RangeChars(parts[0], parts[1]);
    TrimWord(w);
    SplitNone(w, ',');
    assert w[|parts[0]|] == '-' && IsDigit(w[0]);
    var f := ParseField(w, b);
    var lo, hi := Clamp(m, b.min, b.max), Clamp(n, b.min, b.max);
    assert f.mode == Range && f.rangeStart == lo && f.rangeEnd == hi;
    forall v: nat | b.min <= v <= b.max
      ensures FieldMatches(w, v, b) <==> m <= v <= n
      ensures FieldMatches(BuildField(f, b), v, b) <==> lo <= v <= hi || hi <= v <= lo
    {
      SingleMatches(w, v, b);
      FieldMeaning(f, b, v);
    }
    if !RangeKeeps(w, b) {
      assert FieldMatches(BuildField(f, b), lo, b) && !FieldMatches(w, lo, b);
    }
  }

  lemma InBoundsExact(parts: seq<string>, b: FieldBounds, x: int)
    ensures x in InBounds(parts, b) <==> b.min <= x <= b.max && exists p :: p in parts && AllDigits(p) && Value(p) == x
  {
    if parts != [] {
      InBoundsExact(parts[1..], b, x);
      if x in InBounds(parts, b) {
        assert x in InBounds(parts[1..], b) || (AllDigits(parts[0]) && Value(parts[0]) == x);
        assert exists p :: p in parts && AllDigits(p) && Value(p) == x;
      }
    }
  }

  lemma ListParts(s: string)
    requires forall i :: 0 <= i < |s| ==> IsDigit(s[i]) || s[i] == ','
    ensures forall p :: p in Split(s, ',') ==> AllDigits(p)
  {
    if s != "" {
      ListParts(s[1..]);
      var rest := Split(s[1..], ',');
      assert AllDigits(rest[0]);
    }
  }

  lemma ListElements(w: string, v: nat, b: FieldBounds)
    requires IsListText(w)
    ensures FieldMatches(w, v, b) <==> Names(w, v)
  {
    ListParts(w);
    forall e | e in Split(w, ',')
      ensures ElementMatches(e, v, b) <==> IsNumeral(e) && Value(e) == v
    {
      SplitNone(e, '-');
    }
  }

  /** What is read from a list: its named values, and zero for an empty part. */
  lemma ListRead(w: string, b: FieldBounds, v: int)
    requires IsListText(w)
    ensures v in InBounds(Split(w, ','), b) <==> b.min <= v <= b.max && (Names(w, v) || (v == 0 && "" in Split(w, ',')))
  {
    var parts := Split(w, ',');
    InBoundsExact(parts, b, v);
    if "" in parts { assert AllDigits("") && Value("") == 0; }
  }

  lemma ListField(w: string, b: FieldBounds, v: nat)
    requires IsListText(w) && !IsStepText(w) && !IsRangeText(w) && b.min <= v <= b.max
    ensures var listed := InBounds(Split(w, ','), b);
            FieldMatches(BuildField(ParseField(w, b), b), v, b) <==>
            v in listed || (listed == [] && (IsNumeral(w) ==> v == Clamp(Value(w), b.min, b.max)))
  {
    hide FieldMatches, BuildField;
    TrimWord(w);
    var parts := Split(w, ',');
    var listed, f := InBounds(parts, b), ParseField(w, b);
    assert w != "*" by { assert IsDigit(w[0]) || w[0] == ','; }
    FieldMeaning(f, b, v);
    if listed != [] {
      forall k | 0 <= k < |listed| ensures Clamp(listed[k], b.min, b.max) == listed[k] {
        InBoundsExact(parts, b, listed[k]);
      }
      assert f.specific == listed;
    } else if IsNumeral(w) {
      assert f.specific[0] == Clamp(Value(w), b.min, b.max);
    }
  }

  lemma ListExact(w: string, b: FieldBounds)
    requires IsListText(w) && !IsStepText(w) && !IsRangeText(w)
    ensures Kept(w, b) <==> ListKeeps(w, b)
  {
    hide FieldMatches, BuildField, ParseField, InBounds, Split, Names;
    var parts := Split(w, ',');
    var listed := InBounds(parts, b);
    if listed == [] {
      var v := if IsNumeral(w) then Clamp(Value(w), b.min, b.max) else b.min;
      ListField(w, b, v);
      ListElements(w, v, b);
      ListRead(w, b, v);
      forall p | p in parts && AllDigits(p) ensures !(b.min <= Value(p) <= b.max) { InBoundsExact(parts, b, Value(p)); }
    } else {
      InBoundsExact(parts, b, listed[0]);
      forall v: nat | b.min <= v <= b.max
        ensures FieldMatches(BuildField(ParseField(w, b), b), v, b) <==>
                FieldMatches(w, v, b) || (v == 0 && "" in parts)
        ensures FieldMatches(w, v, b) <==> Names(w, v)
      {
        ListField(w, b, v);
        ListElements(w, v, b);
        ListRead(w, b, v);
      }
    }
  }

  /** Any word of another shape is read as "any value". */
  lemma OtherRead(w: string, b: FieldBounds)
    requires IsWord(w) && !IsStepText(w) && !IsRangeText(w) && !IsListText(w)
    ensures BuildField(ParseField(w, b), b) == "*"
  {
    TrimWord(w);
  }

  lemma OtherExact(w: string, b: FieldBounds)
    requires IsWord(w) && !IsStepText(w) && !IsRangeText(w) && !IsListText(w)
    ensures Kept(w, b) <==> MatchesAll(w, b)
  {
    hide FieldMatches, BuildField, ParseField;
    OtherRead(w, b);
    forall v: nat | b.min <= v <= b.max ensures FieldMatches("*", v, b) { AnyMatches(v, b); }
  }

  /** Main result for text the editor did not print: which words keep their meaning when read and printed again.  A
      step does when it is positive, a range when it is ordered and meets the field, a list when it names a value of the
      field and no empty part of it adds a zero; any other word becomes "*". */
  lemma ForeignExact(w: string, b: FieldBounds)
    requires IsWord(w)
    ensures Kept(w, b) <==> Keeps(w, b)
  {
    hide Kept, StepKeeps, RangeKeeps, ListKeeps, BuildField, ParseField, IsStepText, IsRangeText, IsListText;
    if IsStepText(w) {
      StepExact(w, b);
    } else if IsRangeText(w) {
      RangeExact(w, b);
    } else if IsListText(w) {
      ListExact(w, b);
    } else {
      OtherExact(w, b);
    }
  }

  lemma MixedListMatches()
    ensures !FieldMatches("1-5,7", 6, SIXTY)
  {
    hide Trim, BuildField, ParseField;
    var parts := ["1-5", "7"];
    assert parts[0] + [','] + Join(parts[1..], ',') == "1-5,7";
    SplitJoin(parts, ',');
    RangeText(1, 5);
    assert Print(1) == "1" && Print(5) == "5" && Print(7) == "7";
    assert !ElementMatches("1-5", 6, SIXTY);
    NumeralText("7");
    assert Value("7") == 7;
    assert !ElementMatches("7", 6, SIXTY);
  }

  lemma MixedListShape()
    ensures var s := "1-5,7"; IsWord(s) && !IsStepText(s) && !IsRangeText(s) && !IsListText(s)
  {
    hide Value;
    var s := "1-5,7";
    var parts := ["1", "5,7"];
    assert parts[0] + ['-'] + Join(parts[1..], '-') == s;
    SplitJoin(parts, '-');
    assert parts[1][1] == ',' && s[1] == '-';
  }

  /** A list that mixes a range with a value is read as "any" and loses its meaning. */
  lemma MixedListWidened()
    ensures BuildField(ParseField("1-5,7", SIXTY), SIXTY) == "*" && !Kept("1-5,7", SIXTY)
  {
    hide BuildField, ParseField, FieldMatches, IsWord, IsStepText, IsRangeText, IsListText;
    MixedListMatches();
    AnyMatches(6, SIXTY);
    MixedListShape();
    OtherRead("1-5,7", SIXTY);
  }

  /** The fields range over exactly the parts of a calendar moment. */
  lemma CalendarBounds(t: Instant)
    ensures InCalendar(t) <==>
            && SIXTY.min <= t.second <= SIXTY.max && SIXTY.min <= t.minute <= SIXTY.max
            && HOURS.min <= t.hour <= HOURS.max
            && DAYS.min <= t.day <= DAYS.max && MONTHS.min <= t.month <= MONTHS.max
            && WEEKDAYS.min <= t.weekday <= WEEKDAYS.max
  {
  }

  /** An expression with another number of words than five or six is read as a custom configuration of any values. */
  lemma UnreadableIsAny(p: seq<string>, preferCustom: bool)
    requires |p| != 5 && |p| != 6
    ensures var c := ParseWords(p, preferCustom);
            && c.mode == Custom
            && BuildWords(c) == ["*", "*", "*", "*", "*", "*"]
  {
  }

  /** Asked for the custom mode, an expression is always read into it. */
  lemma PreferredIsCustom(p: seq<string>)
    ensures ParseWords(p, true).mode == Custom
  {
  }

  lemma ZeroIsNoStep(zero: string)
    requires zero in {"0", "00"}
    ensures ParseStep(zero, 1, 59).None?
  {
  }

  lemma PresetIsNotCustom(p: seq<string>)
    requires |p| == 5
    ensures ParsePreset(p).Some? ==> ParsePreset(p).value.mode !in {EveryNSeconds, Custom}
  {
    hide ParseStep, IsNumeral, Value;
  }

  /** A seconds word "0" or "00" before five words of a preset changes nothing; before any others the expression is
      read field by field. */
  lemma ZeroSecondsRead(p: seq<string>, zero: string)
    requires |p| == 5 && zero in {"0", "00"}
    ensures var five, six := ParseWords(p, false), ParseWords([zero] + p, false);
            && (five.mode != Custom ==> six == five)
            && (five.mode == Custom ==> six.mode == Custom)
  {
    hide ParsePreset, ParseCustom, Trim, Value;
    assert ([zero] + p)[1..] == p;
    assert ParseStep(zero, 1, 59).None? by {
      hide *;
      ZeroIsNoStep(zero);
    }
    PresetIsNotCustom(p);
  }

  /** What a reading does not set keeps the editor's opening values: every five seconds or minutes, nine o'clock,
      Monday. */
  lemma RestIsDefault(p: seq<string>, preferCustom: bool)
    ensures var c := ParseWords(p, preferCustom);
            && (c.mode != EveryNSeconds ==> c.everyNSeconds == 5)
            && (c.mode != EveryNMinutes ==> c.everyNMinutes == 5)
            && (c.mode != Hourly ==> c.hourlyMinute == 0)
            && (c.mode != Daily ==> c.dailyHour == 9 && c.dailyMinute == 0)
            && (c.mode != Weekly ==> c.weeklyHour == 9 && c.weeklyMinute == 0 && c.weeklyDay == 1)
  {
    hide ParseCustom, ParseStep, IsNumeral, Value;
  }
}
