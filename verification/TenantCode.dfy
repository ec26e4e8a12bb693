/** Allocation of tenant codes: industry prefix, region and a running number of four digits. */
module TenantCode {
  import opened Wrappers
  import opened Text

  const SEQ_LIMIT := 10000

  function IndustryPrefix(orgType: Option<string>): (p: string)
    ensures |p| == 2 && '-' !in p
  {
    match orgType
    case Some("company") => "co"
    case Some("government") => "gv"
    case Some("school") => "sc"
    case Some("hospital") => "hp"
    case Some("association") => "as"
    case _ => "gn"
  }

  function Lower(c: char): char {
    if 'A' <= c <= 'Z' then (c as int + 32) as char else c
  }

  predicate IsAlphanumeric(c: char) {
    '0' <= c <= '9' || 'a' <= c <= 'z' || 'A' <= c <= 'Z'
  }

  function Cleaned(region: string): (r: string)
    ensures forall i :: 0 <= i < |r| ==> IsAlphanumeric(r[i])
  {
    if region == "" then ""
    else (if IsAlphanumeric(region[0]) then [Lower(region[0])] else "") + Cleaned(region[1..])
  }

  function NormalizeRegion(region: string): Result<string> {
    var cleaned := Cleaned(region);
    if |cleaned| < 2 then Error("region too short")
    else if |cleaned| > 8 then Error("region too long")
    else Ok(cleaned)
  }

  lemma IndustriesExact(orgType: Option<string>)
    ensures IndustryPrefix(Some("company")) == "co" && IndustryPrefix(Some("government")) == "gv"
    ensures IndustryPrefix(Some("school")) == "sc" && IndustryPrefix(Some("hospital")) == "hp"
    ensures IndustryPrefix(Some("association")) == "as" && IndustryPrefix(None) == "gn"
    ensures orgType.Some? && orgType.value !in {"company", "government", "school", "hospital", "association"} ==>
              IndustryPrefix(orgType) == "gn"
  {
  }

  lemma CleanedConcat(a: string, b: string)
    ensures Cleaned(a + b) == Cleaned(a) + Cleaned(b)
  {
    if a == "" {
      assert a + b == b;
    } else {
      assert (a + b)[1..] == a[1..] + b;
      CleanedConcat(a[1..], b);
    }
  }

  /** A region keeps its letters, made small, and its digits, in order, and is accepted with two to eight of them. */
  lemma RegionExact(a: string, c: char, b: string)
    ensures Cleaned("") == "" && Cleaned(a + [c] + b) == Cleaned(a) + Cleaned([c]) + Cleaned(b)
    ensures 'a' <= c <= 'z' || '0' <= c <= '9' ==> Cleaned([c]) == [c]
    ensures 'A' <= c <= 'Z' ==> |Cleaned([c])| == 1 && Cleaned([c])[0] as int - 'a' as int == c as int - 'A' as int
    ensures !('a' <= c <= 'z' || 'A' <= c <= 'Z' || '0' <= c <= '9') ==> Cleaned([c]) == ""
    ensures NormalizeRegion(a) == Ok(Cleaned(a)) <==> 2 <= |Cleaned(a)| <= 8
    ensures NormalizeRegion(a).Ok? <==> 2 <= |Cleaned(a)| <= 8
  {
    CleanedConcat(a + [c], b);
    CleanedConcat(a, [c]);
  }

  /** A prefix: two characters, a dash, and a region without dashes. */
  predicate IsPrefix(p: string) {
    |p| > 3 && p[2] == '-' && '-' !in p[..2] && '-' !in p[3..]
  }

  function BuildPrefix(orgType: Option<string>, region: string): (r: Result<string>)
    ensures r.Ok? ==> IsPrefix(r.value)
  {
    match NormalizeRegion(region)
    case Error(m) => Error(m)
    case Ok(cleaned) =>
      var p := IndustryPrefix(orgType) + "-" + cleaned;
      assert p[3..] == cleaned && p[..2] == IndustryPrefix(orgType);
      Ok(p)
  }

  lemma FourPlaces(n: nat)
    requires n < SEQ_LIMIT
    ensures n == 1000 * (n / 1000) + 100 * (n / 100 % 10) + 10 * (n / 10 % 10) + n % 10
  {
    var h, t := n / 100, n / 10;
    assert t == 10 * (t / 10) + t % 10 && h == 10 * (h / 10) + h % 10;
    assert t / 10 == h && h / 10 == n / 1000;
  }

  lemma FourDigits(a: string)
    requires |a| == 4 && AllDigits(a)
    ensures Value(a) == 1000 * DigitValue(a[0]) + 100 * DigitValue(a[1]) + 10 * DigitValue(a[2]) + DigitValue(a[3])
  {
    assert a[..3][..2] == a[..2] && a[..2][..1] == a[..1];
    assert Value(a[..1]) == DigitValue(a[0]) && Value(a[..2]) == 10 * Value(a[..1]) + DigitValue(a[1]);
  }

  /** A number below the limit, padded to four digits. */
  function Padded(n: nat): (s: string)
    requires n < SEQ_LIMIT
    ensures |s| == 4 && AllDigits(s) && Value(s) == n
  {
    var s := [DigitChar(n / 1000), DigitChar(n / 100 % 10), DigitChar(n / 10 % 10), DigitChar(n % 10)];
    FourDigits(s);
    FourPlaces(n);
    s
  }

  function Code(prefix: string, n: nat): string
    requires n < SEQ_LIMIT
  {
    prefix + "-" + Padded(n)
  }

  function ParseSeq(code: string, prefix: string): Option<nat> {
    if !(prefix + "-" <= code) then None
    else
      var suffix := code[|prefix| + 1..];
      if IsNumeral(suffix) then Some(Value(suffix)) else None
  }

  /** Lexicographic order. */
  predicate Leq(a: string, b: string) {
    a == "" || (b != "" && (a[0] < b[0] || (a[0] == b[0] && Leq(a[1..], b[1..]))))
  }

  lemma LeqTransitive(a: string, b: string, c: string)
    requires Leq(a, b) && Leq(b, c)
    ensures Leq(a, c)
  {
  }

  lemma LeqTotal(a: string, b: string)
    ensures Leq(a, b) || Leq(b, a)
  {
  }

  /** The codes a query for the prefix finds. */
  function Matching(codes: set<string>, prefix: string): set<string> {
    set c | c in codes && prefix + "-" <= c
  }

  lemma GreatestExists(s: set<string>)
    requires s != {}
    ensures exists m :: m in s && forall c :: c in s ==> Leq(c, m)
  {
    var x :| x in s;
    var rest := s - {x};
    LeqTotal(x, x);
    if rest != {} {
      GreatestExists(rest);
      var m :| m in rest && forall c :: c in rest ==> Leq(c, m);
      LeqTotal(x, m);
      var top := if Leq(x, m) then m else x;
      forall c | c in s ensures Leq(c, top) {
        if c != x && top == x { LeqTransitive(c, m, x); }
      }
    } else {
      assert s == {x};
    }
  }

  /** The code the allocator derives when top is the last matching code in descending order. */
  function NextCode(prefix: string, top: Option<string>): Result<string> {
    var parsed := if top.Some? then ParseSeq(top.value, prefix) else None;
    var next := if parsed.Some? then parsed.value + 1 else 1;
    if next >= SEQ_LIMIT then Error("sequence exhausted") else Ok(Code(prefix, next))
  }

  /** Top is the code that sorts last among the matching ones, if there is any. */
  ghost predicate IsTop(codes: set<string>, prefix: string, top: Option<string>) {
    match top
    case None => Matching(codes, prefix) == {}
    case Some(m) => m in Matching(codes, prefix) && forall c :: c in Matching(codes, prefix) ==> Leq(c, m)
  }

  method AllocateTenantCode(codes: set<string>, orgType: Option<string>, region: string)
    returns (r: Result<string>, ghost top: Option<string>)
    ensures BuildPrefix(orgType, region).Error? ==> r == BuildPrefix(orgType, region)
    ensures BuildPrefix(orgType, region).Ok? ==>
              var prefix := BuildPrefix(orgType, region).value;
              IsTop(codes, prefix, top) && r == NextCode(prefix, top)
  {
    top := None;
    var built := BuildPrefix(orgType, region);
    if built.Error? { return built, None; }
    var prefix := built.value;
    var matching := Matching(codes, prefix);
    if matching == {} {
      r := NextCode(prefix, None);
    } else {
      GreatestExists(matching);
      var m :| m in matching && forall c :: c in matching ==> Leq(c, m);
      top := Some(m);
      r := NextCode(prefix, Some(m));
    }
  }

  // ---------------------------------------------------------------- freshness

  /** The code was allocated for the prefix. */
  ghost predicate Numbered(p: string, c: string) {
    exists n: nat :: 1 <= n < SEQ_LIMIT && c == Code(p, n)
  }

  /** Every code that a query for a well-formed prefix can find was allocated; other codes may be in the table. */
  ghost predicate Managed(codes: set<string>) {
    forall p, c :: IsPrefix(p) && c in codes && p + "-" <= c ==> Numbered(p, c)
  }

  lemma LeqSamePrefix(p: string, a: string, b: string)
    ensures Leq(p + a, p + b) <==> Leq(a, b)
  {
    if p == "" {
      assert p + a == a && p + b == b;
    } else {
      assert (p + a)[1..] == p[1..] + a && (p + b)[1..] == p[1..] + b;
      LeqSamePrefix(p[1..], a, b);
    }
  }

  lemma LeqFour(a: string, b: string)
    requires |a| == |b| == 4 && AllDigits(a) && AllDigits(b)
    ensures Leq(a, b) <==> Value(a) <= Value(b)
  {
    FourDigits(a);
    FourDigits(b);
    assert Leq(a[1..][1..][1..], b[1..][1..][1..]) <==> a[3] <= b[3];
    assert Leq(a[1..][1..], b[1..][1..]) <==> a[2] < b[2] || (a[2] == b[2] && a[3] <= b[3]);
  }

  /** For one prefix the lexicographic order of codes is the order of their numbers. */
  lemma CodeOrder(p: string, m: nat, n: nat)
    requires m < SEQ_LIMIT && n < SEQ_LIMIT
    ensures Leq(Code(p, m), Code(p, n)) <==> m <= n
  {
    LeqSamePrefix(p + "-", Padded(m), Padded(n));
    LeqFour(Padded(m), Padded(n));
  }

  lemma CodeParses(p: string, n: nat)
    requires n < SEQ_LIMIT
    ensures p + "-" <= Code(p, n) && ParseSeq(Code(p, n), p) == Some(n)
  {
  }

  /** A query for one prefix never finds the codes of another. */
  lemma PrefixesApart(p: string, q: string, n: nat)
    requires IsPrefix(p) && IsPrefix(q) && n < SEQ_LIMIT && p + "-" <= Code(q, n)
    ensures p == q
  {
    var c := Code(q, n);
    assert c[|q|] == '-';
    assert c[..|p|] == p && c[|p|] == '-';
    assert c[..|q|] == q;
  }

  /** In a managed table the code that sorts last has the greatest number. */
  lemma TopIsNumericGreatest(codes: set<string>, p: string, top: Option<string>)
    requires Managed(codes) && IsPrefix(p) && IsTop(codes, p, top) && top.Some?
    ensures exists t: nat :: 1 <= t < SEQ_LIMIT && top.value == Code(p, t)
                             && forall n: nat :: n < SEQ_LIMIT && Code(p, n) in codes ==> n <= t
  {
    assert Numbered(p, top.value);
    var t: nat :| 1 <= t < SEQ_LIMIT && top.value == Code(p, t);
    forall n: nat | n < SEQ_LIMIT && Code(p, n) in codes ensures n <= t {
      CodeParses(p, n);
      CodeOrder(p, n, t);
    }
  }

  lemma TopInUse(codes: set<string>, p: string, top: string)
    requires IsTop(codes, p, Some(top))
    ensures top in codes
  {
  }

  lemma NoneInUse(codes: set<string>, p: string)
    requires IsTop(codes, p, None)
    ensures forall m: nat :: m < SEQ_LIMIT ==> Code(p, m) !in codes
  {
    forall m: nat | m < SEQ_LIMIT ensures Code(p, m) !in codes {
      CodeParses(p, m);
      assert Code(p, m) !in Matching(codes, p);
    }
  }

  lemma NewCode(codes: set<string>, p: string, n: nat)
    requires Managed(codes) && IsPrefix(p) && 1 <= n < SEQ_LIMIT
    requires forall m: nat :: m < SEQ_LIMIT && Code(p, m) in codes ==> m < n
    ensures Code(p, n) !in codes && Managed(codes + {Code(p, n)})
  {
    assert Numbered(p, Code(p, n));
    forall q, c | IsPrefix(q) && c in codes + {Code(p, n)} && q + "-" <= c ensures Numbered(q, c) {
      if c == Code(p, n) { PrefixesApart(q, p, n); }
    }
  }

  lemma LastCode(p: string)
    ensures Code(p, SEQ_LIMIT - 1) == p + "-" + Padded(9999)
  {
  }

  /** Main result: in a managed table the allocated code is new, carries the number after the greatest in use,
      and keeps the table managed; allocation fails exactly when the last number is taken. */
  lemma AllocationFresh(codes: set<string>, p: string, top: Option<string>)
    requires Managed(codes) && IsPrefix(p) && IsTop(codes, p, top)
    ensures NextCode(p, top).Error? <==> p + "-" + Padded(9999) in codes
    ensures NextCode(p, top).Ok? ==>
              var c := NextCode(p, top).value;
              && c !in codes && Managed(codes + {c})
              && (exists n: nat :: 1 <= n < SEQ_LIMIT && c == Code(p, n)
                                   && (forall m: nat :: m < SEQ_LIMIT && Code(p, m) in codes ==> m < n)
                                   && (n > 1 ==> Code(p, n - 1) in codes))
  {
    hide Managed, IsPrefix, IsTop, Matching, ParseSeq, Code;
    LastCode(p);
    if top.Some? {
      TopIsNumericGreatest(codes, p, top);
      var t: nat :| 1 <= t < SEQ_LIMIT && top.value == Code(p, t)
                    && forall n: nat :: n < SEQ_LIMIT && Code(p, n) in codes ==> n <= t;
      CodeParses(p, t);
      TopInUse(codes, p, top.value);
      if t + 1 < SEQ_LIMIT { NewCode(codes, p, t + 1); }
    } else {
      NoneInUse(codes, p);
      NewCode(codes, p, 1);
    }
  }

  lemma NextOntoTable(p: string, m: string)
    requires p + "-" <= m && NextCode(p, Some(m)).Ok? && Leq(NextCode(p, Some(m)).value, m)
    ensures IsTop({m, NextCode(p, Some(m)).value}, p, Some(m))
  {
    var next := NextCode(p, Some(m)).value;
    LeqTotal(m, m);
    assert m in Matching({m, next}, p);
  }

  lemma NextMatches(p: string, top: Option<string>)
    requires NextCode(p, top).Ok?
    ensures p + "-" <= NextCode(p, top).value
  {
  }

  /** The code derived from the row read is new in every table with that row on top exactly when it sorts after it. */
  lemma FreshExactly(p: string, m: string)
    requires p + "-" <= m && NextCode(p, Some(m)).Ok?
    ensures (forall codes :: IsTop(codes, p, Some(m)) ==> NextCode(p, Some(m)).value !in codes)
            <==> !Leq(NextCode(p, Some(m)).value, m)
  {
    var next := NextCode(p, Some(m)).value;
    NextMatches(p, Some(m));
    if Leq(next, m) {
      NextOntoTable(p, m);
      assert next in {m, next};
    } else {
      forall codes | IsTop(codes, p, Some(m)) ensures next !in codes {
        assert next in codes ==> next in Matching(codes, p);
      }
    }
  }

  /** Where no code matches, the derived one is always new. */
  lemma FirstIsFresh(codes: set<string>, p: string)
    requires IsTop(codes, p, None)
    ensures NextCode(p, None) == Ok(Code(p, 1)) && Code(p, 1) !in codes
  {
    NoneInUse(codes, p);
  }

  lemma FirstPadded()
    ensures Padded(1) == "0001"
  {
    assert DigitChar(0) == '0' && DigitChar(1) == '1';
  }

  /** When the code that follows a row with this suffix is new, whatever else the table holds below that row. */
  predicate SuffixSafe(suffix: string) {
    if !IsNumeral(suffix) then !Leq("0001", suffix)
    else Value(suffix) + 1 < SEQ_LIMIT ==> |suffix| == 4 || !Leq(Padded(Value(suffix) + 1), suffix)
  }

  lemma NextOfSuffix(p: string, suffix: string)
    ensures var n := if IsNumeral(suffix) then Value(suffix) + 1 else 1;
            NextCode(p, Some(p + "-" + suffix))
            == if n >= SEQ_LIMIT then Error("sequence exhausted") else Ok(Code(p, n))
  {
    var code := p + "-" + suffix;
    assert code[..|p| + 1] == p + "-" && code[|p| + 1..] == suffix;
  }

  /** Main result: exactly for which suffixes of the row read the derived code is new in every table with that row on
      top: for every four digits, for other numerals whose padded successor sorts after them, and for any other text
      that sorts before 0001. */
  lemma FreshBySuffix(p: string, suffix: string)
    requires NextCode(p, Some(p + "-" + suffix)).Ok?
    ensures (forall codes :: IsTop(codes, p, Some(p + "-" + suffix)) ==>
             NextCode(p, Some(p + "-" + suffix)).value !in codes)
            <==> SuffixSafe(suffix)
  {
    hide IsTop, Padded, NextCode, Value;
    var m, n := p + "-" + suffix, if IsNumeral(suffix) then Value(suffix) + 1 else 1;
    NextOfSuffix(p, suffix);
    assert p + "-" <= m;
    FreshExactly(p, m);
    LeqSamePrefix(p + "-", Padded(n), suffix);
    FirstPadded();
    if IsNumeral(suffix) && |suffix| == 4 { LeqFour(Padded(n), suffix); }
  }

  /** A code that was not allocated can make the allocator repeat itself. */
  lemma ForeignCodeRepeats()
    ensures var codes := {"co-11-x", "co-11-0001"};
            IsTop(codes, "co-11", Some("co-11-x")) && NextCode("co-11", Some("co-11-x")) == Ok("co-11-0001")
  {
    hide Padded, NextCode, ParseSeq, IsTop;
    assert "co-11-" + "0001" == "co-11-0001" && "co-11-" + "x" == "co-11-x" && "co-11" + "-" == "co-11-";
    assert !IsDigit("x"[0]);
    NextOfSuffix("co-11", "x");
    FirstPadded();
    LeqSamePrefix("co-11-", "0001", "x");
    NextOntoTable("co-11", "co-11-x");
  }
}
