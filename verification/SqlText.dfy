/** Printing parameters into audited SQL text, and reading the printed literals back. */
module SqlText {
  import opened Wrappers
  import opened Text

  datatype SqlValue = Null | Bool(flag: bool) | Int(n: int) | Str(text: string)

  // ---------------------------------------------------------------- printing

  function Replace(s: string, c: char, to: string): string {
    if s == "" then "" else (if s[0] == c then to else [s[0]]) + Replace(s[1..], c, to)
  }

  function FormatLiteral(v: SqlValue): string {
    match v
    case Null => "NULL"
    case Bool(flag) => if flag then "1" else "0"
    case Int(n) => if n < 0 then "-" + Print(-n) else Print(n)
    case Str(text) => "'" + Replace(Replace(text, '\\', "\\\\"), '\'', "''") + "'"
  }

  /** No value is NULL, truth values are one and zero, and a number's digits have its value behind a minus where it is
      negative; text is the only literal in quotes. */
  lemma LiteralsExact(flag: bool, n: int, text: string)
    ensures FormatLiteral(Null) == "NULL"
    ensures FormatLiteral(Bool(flag)) == "1" <==> flag
    ensures FormatLiteral(Bool(flag)) == "0" <==> !flag
    ensures n >= 0 ==> IsNumeral(FormatLiteral(Int(n))) && Value(FormatLiteral(Int(n))) == n
    ensures n < 0 ==> var s := FormatLiteral(Int(n)); s != "" && s[0] == '-' && IsNumeral(s[1..]) && Value(s[1..]) == -n
    ensures var s := FormatLiteral(Str(text)); |s| >= 2 && s[0] == '\'' && s[|s| - 1] == '\''
  {
    if n < 0 { assert ("-" + Print(-n))[1..] == Print(-n); }
  }

  /** The template cut at every `%s`, scanning from the left. */
  function Parts(sql: string): (parts: seq<string>)
    ensures |parts| >= 1
    decreases |sql|
  {
    if sql == "" then [""]
    else if |sql| >= 2 && sql[0] == '%' && sql[1] == 's' then [""] + Parts(sql[2..])
    else
      var rest := Parts(sql[1..]);
      [[sql[0]] + rest[0]] + rest[1..]
  }

  /** The template with its parts joined by `%s` again. */
  function Template(parts: seq<string>): string
    requires |parts| >= 1
  {
    if |parts| == 1 then parts[0] else parts[0] + "%s" + Template(parts[1..])
  }

  /** Parts and printed values alternating. */
  function Inlined(parts: seq<string>, values: seq<SqlValue>): string
    requires |parts| == |values| + 1
  {
    if values == [] then parts[0]
    else parts[0] + FormatLiteral(values[0]) + Inlined(parts[1..], values[1..])
  }

  function Concat(out: seq<string>): string {
    if out == [] then "" else Concat(out[..|out| - 1]) + out[|out| - 1]
  }

  lemma ConcatTwo(out: seq<string>, a: string, b: string)
    ensures Concat(out + [a, b]) == Concat(out) + a + b
  {
    var all := out + [a, b];
    assert all[..|all| - 1] == out + [a];
    assert (out + [a])[..|out|] == out;
  }

  method InlinePositional(sql: string, parameters: seq<SqlValue>) returns (r: string)
    ensures |Parts(sql)| != |parameters| + 1 ==> r == sql
    ensures |Parts(sql)| == |parameters| + 1 ==> r == Inlined(Parts(sql), parameters)
  {
    hide FormatLiteral, Parts;
    var parts := Parts(sql);
    if |parts| - 1 != |parameters| {
      return sql;
    }
    var out: seq<string> := [];
    var index := 0;
    assert parts[0..] == parts && parameters[0..] == parameters;
    while index < |parameters|
      invariant 0 <= index <= |parameters|
      invariant Concat(out) + Inlined(parts[index..], parameters[index..]) == Inlined(parts, parameters)
    {
      ConcatTwo(out, parts[index], FormatLiteral(parameters[index]));
      assert parts[index..][1..] == parts[index + 1..] && parameters[index..][1..] == parameters[index + 1..];
      out := out + [parts[index], FormatLiteral(parameters[index])];
      index := index + 1;
    }
    assert Inlined(parts[index..], parameters[index..]) == parts[|parts| - 1];
    assert (out + [parts[|parts| - 1]])[..|out|] == out;
    out := out + [parts[|parts| - 1]];
    r := Concat(out);
  }

  // ---------------------------------------------------------------- reading

  /** What a backslash followed by c stands for in a MySQL string literal. */
  function Unescape(c: char): string {
    match c
    case '0' => ['\0']
    case 'b' => ['\U{0008}']
    case 'n' => ['\n']
    case 'r' => ['\r']
    case 't' => ['\t']
    case 'Z' => ['\U{001A}']
    case '%' => "\\%"
    case '_' => "\\_"
    case _ => [c]
  }

  function Prefixed(p: string, r: Option<(string, string)>): Option<(string, string)> {
    match r
    case None => None
    case Some((text, rest)) => Some((p + text, rest))
  }

  /** Reads up to the closing quote: the text so far and what follows the literal. */
  function ReadBody(s: string): Option<(string, string)>
    decreases |s|
  {
    if s == "" then None
    else if s[0] == '\'' then
      if |s| >= 2 && s[1] == '\'' then Prefixed("'", ReadBody(s[2..]))
      else Some(("", s[1..]))
    else if s[0] == '\\' then
      if |s| >= 2 then Prefixed(Unescape(s[1]), ReadBody(s[2..])) else None
    else Prefixed([s[0]], ReadBody(s[1..]))
  }

  /** Reads one string literal by the string rules of MySQL. */
  function ReadLiteral(s: string): Option<(string, string)> {
    if s == "" || s[0] != '\'' then None else ReadBody(s[1..])
  }

  function Escaped(v: string): string {
    Replace(Replace(v, '\\', "\\\\"), '\'', "''")
  }

  lemma ReplaceConcat(a: string, b: string, c: char, to: string)
    ensures Replace(a + b, c, to) == Replace(a, c, to) + Replace(b, c, to)
  {
    if a == "" {
      assert a + b == b;
    } else {
      assert (a + b)[1..] == a[1..] + b;
      ReplaceConcat(a[1..], b, c, to);
    }
  }

  /** The two replacement passes work character by character. */
  lemma EscapedHead(v: string)
    requires v != ""
    ensures Escaped(v) == (if v[0] == '\\' then "\\\\" else if v[0] == '\'' then "''" else [v[0]]) + Escaped(v[1..])
  {
    var head := if v[0] == '\\' then "\\\\" else [v[0]];
    ReplaceConcat(head, Replace(v[1..], '\\', "\\\\"), '\'', "''");
    assert Replace("\\\\", '\'', "''") == "\\\\" by {
      assert "\\\\"[1..] == "\\" && "\\"[1..] == "";
    }
    assert [v[0]][1..] == "";
  }

  predicate StartsWithQuote(s: string) {
    s != "" && s[0] == '\''
  }

  /** One reading step over a pair of characters that stands for the single character c. */
  lemma ReadPair(pair: string, c: char, tail: string)
    requires (pair == "''" && c == '\'') || (pair == "\\\\" && c == '\\')
    ensures ReadBody(pair + tail) == Prefixed([c], ReadBody(tail))
  {
  }

  lemma ReadPlain(c: char, tail: string)
    requires c != '\'' && c != '\\'
    ensures ReadBody([c] + tail) == Prefixed([c], ReadBody(tail))
  {
  }

  lemma ReadEnd(rest: string)
    ensures !StartsWithQuote(rest) ==> ReadBody("'" + rest) == Some(("", rest))
    ensures StartsWithQuote(rest) ==> var r := ReadBody("'" + rest); r.None? || |r.value.0| > 0
  {
  }

  lemma EscapedNothing()
    ensures Escaped("") == ""
  {
  }

  lemma ReadEscaped(v: string, rest: string)
    ensures !StartsWithQuote(rest) ==> ReadBody(Escaped(v) + "'" + rest) == Some((v, rest))
    ensures StartsWithQuote(rest) ==>
              var r := ReadBody(Escaped(v) + "'" + rest); r.None? || |r.value.0| > |v|
    decreases |v|
  {
    hide ReadBody, Replace;
    if v == "" {
      EscapedNothing();
      ReadEnd(rest);
      assert Escaped(v) + "'" + rest == "'" + rest;
    } else {
      hide Escaped;
      EscapedHead(v);
      ReadEscaped(v[1..], rest);
      var tail := Escaped(v[1..]) + "'" + rest;
      assert [v[0]] + v[1..] == v;
      var head := if v[0] == '\\' then "\\\\" else if v[0] == '\'' then "''" else [v[0]];
      assert Escaped(v) + "'" + rest == head + tail;
      if v[0] == '\\' || v[0] == '\'' { ReadPair(head, v[0], tail); } else { ReadPlain(v[0], tail); }
    }
  }

  /** A printed text literal is read back whole, giving the original value, exactly when no quote follows it. */
  lemma LiteralRoundTrip(v: string, rest: string)
    ensures ReadLiteral(FormatLiteral(Str(v)) + rest) == Some((v, rest)) <==> !StartsWithQuote(rest)
  {
    var s := FormatLiteral(Str(v)) + rest;
    assert s[1..] == Escaped(v) + "'" + rest;
    ReadEscaped(v, rest);
  }

  // ---------------------------------------------------------------- undoing the inlining

  function Texts(values: seq<string>): (r: seq<SqlValue>)
    ensures |r| == |values| && forall i :: 0 <= i < |r| ==> r[i] == Str(values[i])
  {
    if values == [] then [] else [Str(values[0])] + Texts(values[1..])
  }

  /** Reads the values back out of inlined text, given the template. */
  function Extract(parts: seq<string>, s: string): Option<seq<string>>
    requires |parts| >= 1
  {
    if |parts| == 1 then if s == parts[0] then Some([]) else None
    else if !(parts[0] <= s) then None
    else
      match ReadLiteral(s[|parts[0]|..])
      case None => None
      case Some((v, rest)) =>
        match Extract(parts[1..], rest)
        case None => None
        case Some(vs) => Some([v] + vs)
  }

  /** After every placeholder comes either the end of the template or a character that is not a quote. */
  predicate Separated(parts: seq<string>) {
    forall i :: 0 < i < |parts| ==> if parts[i] == "" then i == |parts| - 1 else parts[i][0] != '\''
  }

  lemma InlinedStep(parts: seq<string>, values: seq<string>)
    requires |parts| == |values| + 1 && |values| > 0
    ensures Inlined(parts, Texts(values))
            == parts[0] + (FormatLiteral(Str(values[0])) + Inlined(parts[1..], Texts(values[1..])))
  {
  }

  predicate GoodStart(parts: seq<string>)
    requires |parts| >= 1
  {
    if parts[0] == "" then |parts| == 1 else parts[0][0] != '\''
  }

  /** Whether inlined text starts with a quote is decided by the first part of the template. */
  lemma InlinedStart(parts: seq<string>, values: seq<string>)
    requires |parts| == |values| + 1
    ensures StartsWithQuote(Inlined(parts, Texts(values))) <==> !GoodStart(parts)
  {
  }

  /** What reading one printed literal yields, by what follows it. */
  lemma ReadPrinted(v: string, rest: string)
    ensures var r := ReadLiteral(FormatLiteral(Str(v)) + rest);
            if StartsWithQuote(rest) then r.None? || |r.value.0| > |v| else r == Some((v, rest))
  {
    var s := FormatLiteral(Str(v)) + rest;
    assert s[1..] == Escaped(v) + "'" + rest;
    ReadEscaped(v, rest);
  }

  lemma Unpunctuated(parts: seq<string>)
    requires |parts| == 1
    ensures Separated(parts) && Inlined(parts, []) == parts[0] && Texts([]) == []
  {
  }

  lemma SeparatedTail(parts: seq<string>)
    requires |parts| >= 2
    ensures Separated(parts) <==>
            Separated(parts[1..]) && GoodStart(parts[1..])
  {
  }

  /** Given the template, the values can be read back out exactly when the template is separated. */
  lemma {:induction false} InliningReversible(parts: seq<string>, values: seq<string>)
    requires |parts| == |values| + 1
    ensures Extract(parts, Inlined(parts, Texts(values))) == Some(values) <==> Separated(parts)
    decreases |parts|
  {
    hide FormatLiteral, ReadLiteral, Texts, Inlined, Separated;
    if values == [] {
      Unpunctuated(parts);
    } else {
      var tail := parts[1..];
      var rest := Inlined(tail, Texts(values[1..]));
      var printed := FormatLiteral(Str(values[0]));
      var s := Inlined(parts, Texts(values));
      InlinedStep(parts, values);
      assert s[|parts[0]|..] == printed + rest;
      ReadPrinted(values[0], rest);
      InlinedStart(tail, values[1..]);
      InliningReversible(tail, values[1..]);
      SeparatedTail(parts);
      assert values == [values[0]] + values[1..];
    }
  }

  predicate QuoteFree(s: string) {
    '\'' !in s
  }

  /** Reads inlined text without its template: the stretches outside literals, and the literals. */
  function Scan(s: string): Option<(seq<string>, seq<string>)>
    decreases |s|
  {
    if s == "" then Some(([""], []))
    else if s[0] == '\'' then
      match ReadBody(s[1..])
      case None => None
      case Some((v, rest)) =>
        if |rest| >= |s| then None
        else
          match Scan(rest)
          case None => None
          case Some((parts, values)) => Some(([""] + parts, [v] + values))
    else
      match Scan(s[1..])
      case None => None
      case Some((parts, values)) =>
        if parts == [] then None else Some(([[s[0]] + parts[0]] + parts[1..], values))
  }

  lemma ScanPrefix(p: string, rest: string)
    requires QuoteFree(p) && Scan(rest).Some? && Scan(rest).value.0 != []
    ensures var r := Scan(rest).value;
            Scan(p + rest) == Some(([p + r.0[0]] + r.0[1..], r.1))
  {
    var r := Scan(rest).value;
    if p == "" {
      assert p + rest == rest && p + r.0[0] == r.0[0] && r.0 == [r.0[0]] + r.0[1..];
    } else {
      ScanPrefix(p[1..], rest);
      assert (p + rest)[1..] == p[1..] + rest;
      assert [p[0]] + (p[1..] + r.0[0]) == p + r.0[0];
    }
  }

  lemma ScanPrinted(v: string, rest: string)
    requires !StartsWithQuote(rest) && Scan(rest).Some?
    ensures Scan(FormatLiteral(Str(v)) + rest) == Some(([""] + Scan(rest).value.0, [v] + Scan(rest).value.1))
  {
    hide Replace;
    var s := FormatLiteral(Str(v)) + rest;
    assert s[1..] == Escaped(v) + "'" + rest;
    ReadEscaped(v, rest);
  }

  /** Without quotes in a separated template, the inlined text alone determines template and values. */
  lemma {:induction false} ScanInlined(parts: seq<string>, values: seq<string>)
    requires |parts| == |values| + 1 && Separated(parts)
    requires forall i :: 0 <= i < |parts| ==> QuoteFree(parts[i])
    ensures Scan(Inlined(parts, Texts(values))) == Some((parts, values))
    decreases |parts|
  {
    hide FormatLiteral, Texts, Inlined, Separated, ReadBody;
    if values == [] {
      Unpunctuated(parts);
      ScanPrefix(parts[0], "");
      assert parts[0] + "" == parts[0] && parts == [parts[0]] + [""][1..];
    } else {
      var tail := parts[1..];
      var rest := Inlined(tail, Texts(values[1..]));
      var s := FormatLiteral(Str(values[0])) + rest;
      SeparatedTail(parts);
      ScanInlined(tail, values[1..]);
      InlinedStart(tail, values[1..]);
      ScanPrinted(values[0], rest);
      ScanPrefix(parts[0], s);
      InlinedStep(parts, values);
      assert parts[0] + "" == parts[0] && parts == [parts[0]] + tail && values == [values[0]] + values[1..];
    }
  }

  /** Cutting a template at its placeholders loses nothing. */
  lemma {:induction false} TemplateParts(sql: string)
    ensures Template(Parts(sql)) == sql
    decreases |sql|
  {
    if sql != "" {
      if |sql| >= 2 && sql[0] == '%' && sql[1] == 's' {
        TemplateParts(sql[2..]);
        assert Parts(sql)[1..] == Parts(sql[2..]);
        assert sql == "" + "%s" + sql[2..];
      } else {
        TemplateParts(sql[1..]);
        var rest := Parts(sql[1..]);
        assert Parts(sql)[1..] == rest[1..];
        assert sql == [sql[0]] + sql[1..];
      }
    }
  }

  lemma PartsQuoteFree(sql: string)
    requires QuoteFree(sql)
    ensures forall i :: 0 <= i < |Parts(sql)| ==> QuoteFree(Parts(sql)[i])
    decreases |sql|
  {
  }

  /** Main result: a quote-free template whose placeholders are separated is recovered, with its text values,
      from the inlined statement alone, whatever quotes, backslashes or placeholders the values contain. */
  lemma InliningUndone(sql: string, values: seq<string>)
    requires QuoteFree(sql) && |Parts(sql)| == |values| + 1 && Separated(Parts(sql))
    ensures var r := Scan(Inlined(Parts(sql), Texts(values)));
            r.Some? && r.value.1 == values && r.value.0 != [] && Template(r.value.0) == sql
  {
    PartsQuoteFree(sql);
    ScanInlined(Parts(sql), values);
    TemplateParts(sql);
  }
}
