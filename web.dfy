/**
 * The URL router of web.py: route patterns compiled into a matcher and a path
 * format, first-match dispatch in registration order, reverse routing with
 * `url_for`, and the four URL converters.
 *
 * A pattern arrives already split into literal text and `<type(args):name>`
 * placeholders. A compiled route keeps the same split as a list of segments;
 * matching a path against it tries, for every placeholder, the candidate
 * captures in the order Python's backtracking regex engine tries them.
 * `quote_plus`, `unquote_plus` and `urlencode` are library calls and enter as
 * the functions of a `UrlCodec`.
 */
module Web {
  import opened Base

  /** The four converters (web.py:109-157), by the `url_types` name that selects them. */
  datatype Converter =
    | AnyConverter(options: seq<string>)
    | PathConverter
    | StrConverter
    | IntConverter

  /** The values handed to routes and to `url_for`: Python ints and strs. */
  datatype Value = IntValue(n: int) | StrValue(s: string)

  /** The exceptions the router raises. */
  datatype WebError =
    | UnknownConverter(typeName: string)           // KeyError from url_types
    | ConverterTakesNoArguments(typeName: string)  // TypeError from the converter's constructor
    | DuplicatePlaceholder(name: string)           // re.error: redefinition of group name
    | NotAnOption                                  // ValueError from AnyConverter.to_str
    | UnmatchedOption                              // RuntimeError from AnyConverter.to_python
    | NotAnInteger                                 // ValueError from int()
    | UnexpectedKeyword                            // TypeError: unquote_plus() has no `safe`
    | BadFormat                                    // ValueError / KeyError from str.format

  /** `quote_plus(s)`, `quote_plus(s, safe='/')` and `unquote_plus(s)`. */
  datatype UrlCodec = UrlCodec(quote: string -> string, quotePath: string -> string, unquote: string -> string)

  // ---------------------------------------------------------------------------
  // Decimal integers, as `int(s)` and `'{:d}'.format(n)` treat them

  predicate IsDigit(c: char) { '0' <= c <= '9' }

  predicate AllDigits(s: string) { forall i :: 0 <= i < |s| ==> IsDigit(s[i]) }

  function DigitChar(d: nat): (c: char)
    requires d < 10
    ensures IsDigit(c) && c as int - '0' as int == d
  {
    ('0' as int + d) as char
  }

  /** The decimal digits of `n`, most significant first, without leading zeros. */
  function Digits(n: nat): (s: string)
    decreases n
    ensures |s| >= 1 && AllDigits(s)
    ensures |s| > 1 ==> s[0] != '0'
  {
    if n < 10 then [DigitChar(n)] else Digits(n / 10) + [DigitChar(n % 10)]
  }

  /** The number a string of decimal digits denotes. */
  function DigitsValue(s: string): nat
    requires AllDigits(s)
  {
    if |s| == 0 then 0 else DigitsValue(s[..|s| - 1]) * 10 + (s[|s| - 1] as int - '0' as int)
  }

  lemma {:induction false} DigitsRoundTrip(n: nat)
    ensures DigitsValue(Digits(n)) == n
  {
    if n >= 10 {
      DigitsRoundTrip(n / 10);
      var s := Digits(n);
      assert s[..|s| - 1] == Digits(n / 10);
    }
  }

  /** `'{:d}'.format(n)` and `str(n)`. */
  function ShowInt(n: int): string {
    if n < 0 then "-" + Digits(-n) else Digits(n)
  }

  /**
   * The base-10 numerals `int()` reads once the sign is removed: digits, with a
   * single underscore allowed between two of them.
   */
  predicate Numeral(s: string) {
    && |s| >= 1 && IsDigit(s[0]) && IsDigit(s[|s| - 1])
    && (forall i :: 0 <= i < |s| ==> IsDigit(s[i]) || s[i] == '_')
    && (forall i :: 0 <= i < |s| - 1 && s[i] == '_' ==> IsDigit(s[i + 1]))
  }

  /** The digits of a numeral, its underscores dropped. */
  function DropUnderscores(s: string): (d: string)
    ensures (forall i :: 0 <= i < |s| ==> IsDigit(s[i]) || s[i] == '_') ==> AllDigits(d)
    ensures |s| > 0 && s[0] != '_' ==> |d| > 0
    ensures AllDigits(s) ==> d == s
  {
    if |s| == 0 then [] else (if s[0] == '_' then [] else [s[0]]) + DropUnderscores(s[1..])
  }

  /** The number a numeral denotes. */
  function NumeralValue(s: string): nat
    requires Numeral(s)
  {
    DigitsValue(DropUnderscores(s))
  }

  /** What `int()` accepts after stripping: an optional sign, then a numeral. */
  predicate IntSyntax(t: string) {
    Numeral(t) || (|t| >= 2 && (t[0] == '-' || t[0] == '+') && Numeral(t[1..]))
  }

  /**
   * `int(s)` for a `str`: surrounding whitespace is stripped, then an optionally
   * signed numeral is read; anything else raises `ValueError`.
   */
  function ParseInt(s: string): (r: Result<int, WebError>)
    ensures r.Ok? <==> IntSyntax(Strip(s))
    ensures r.Err? ==> r.error == NotAnInteger
    ensures |s| >= 1 && AllDigits(s) ==> r == Ok(DigitsValue(s))
  {
    var t := Strip(s);
    if Numeral(t) then Ok(NumeralValue(t))
    else if |t| >= 2 && t[0] == '-' && Numeral(t[1..]) then Ok(0 - NumeralValue(t[1..]))
    else if |t| >= 2 && t[0] == '+' && Numeral(t[1..]) then Ok(NumeralValue(t[1..]))
    else Err(NotAnInteger)
  }

  /** The digits `str(n)` writes form a numeral denoting `n`. */
  lemma DigitsNumeral(n: nat)
    ensures Numeral(Digits(n)) && NumeralValue(Digits(n)) == n
  {
    DigitsRoundTrip(n);
  }

  /** A text that neither starts nor ends with whitespace is its own `strip()`. */
  lemma StripUnpadded(s: string)
    requires |s| >= 1 && !IsSpace(s[0]) && !IsSpace(s[|s| - 1])
    ensures Strip(s) == s
  {
    assert StripLeft(s) == s;
  }

  lemma ParseUnsigned(s: string)
    requires Strip(s) == s && Numeral(s)
    ensures ParseInt(s) == Ok(NumeralValue(s))
  {
  }

  lemma ParseNegative(d: string)
    requires Numeral(d)
    ensures ParseInt("-" + d) == Ok(0 - NumeralValue(d))
  {
    var s := "-" + d;
    assert s[1..] == d;
    assert !IsSpace(s[0]) && !IsSpace(s[|s| - 1]) by {
      assert s[|s| - 1] == d[|d| - 1];
    }
    StripUnpadded(s);
    assert !IsDigit(s[0]);
  }

  /** `int(str(n)) == n` for every integer. */
  lemma ParseShowInt(n: int)
    ensures ParseInt(ShowInt(n)) == Ok(n)
  {
    if n < 0 { ParseShowNegative(n); } else { ParseShowNat(n); }
  }

  lemma ParseShowNat(n: nat)
    ensures ParseInt(ShowInt(n)) == Ok(n)
  {
    var s := Digits(n);
    DigitsNumeral(n);
    assert !IsSpace(s[0]) && !IsSpace(s[|s| - 1]) by {
      assert IsDigit(s[0]) && IsDigit(s[|s| - 1]);
    }
    StripUnpadded(s);
    ParseUnsigned(s);
  }

  lemma ParseShowNegative(n: int)
    requires n < 0
    ensures ParseInt(ShowInt(n)) == Ok(n)
  {
    var d := Digits(-n);
    assert Numeral(d) && NumeralValue(d) == -n by { DigitsNumeral(-n); }
    ParseNegative(d);
  }

  /** `Strip` removes exactly the whitespace padding around a text without its own. */
  lemma StripPadded(pad1: string, s: string, pad2: string)
    requires forall k :: 0 <= k < |pad1| ==> IsSpace(pad1[k])
    requires forall k :: 0 <= k < |pad2| ==> IsSpace(pad2[k])
    requires |s| >= 1 && !IsSpace(s[0]) && !IsSpace(s[|s| - 1])
    ensures Strip(pad1 + s + pad2) == s
  {
    var t := pad1 + s + pad2;
    LeadingPad(t, |pad1|, 0);
    TrailingPad(t, |pad1| + |s|, |t|);
    StripInfix(t);
    assert t[|pad1|..|pad1| + |s|] == s;
  }

  lemma {:induction false} LeadingPad(t: string, n: nat, i: nat)
    requires i <= n < |t| && !IsSpace(t[n])
    requires forall k :: i <= k < n ==> IsSpace(t[k])
    ensures LeadingFrom(t, i) == n
    decreases n - i
  {
    if i < n { LeadingPad(t, n, i + 1); }
  }

  lemma {:induction false} TrailingPad(t: string, n: nat, j: nat)
    requires 0 < n <= j <= |t| && !IsSpace(t[n - 1])
    requires forall k :: n <= k < j ==> IsSpace(t[k])
    ensures TrailingFrom(t, j) == n
    decreases j - n
  {
    if n < j { TrailingPad(t, n, j - 1); }
  }

  /** `int()` ignores whitespace around the number. */
  lemma ParseIntIgnoresPadding(pad1: string, s: string, pad2: string)
    requires forall k :: 0 <= k < |pad1| ==> IsSpace(pad1[k])
    requires forall k :: 0 <= k < |pad2| ==> IsSpace(pad2[k])
    requires |s| >= 1 && !IsSpace(s[0]) && !IsSpace(s[|s| - 1])
    ensures ParseInt(pad1 + s + pad2) == ParseInt(s)
  {
    StripPadded(pad1, s, pad2);
    StripUnpadded(s);
  }

  /** `int(" 4") == 4`: whitespace around the number is ignored. */
  lemma ParseIntPaddedExample()
    ensures ParseInt(" 4") == Ok(4)
  {
    ParseIntIgnoresPadding(" ", "4", "");
    assert " " + "4" + "" == " 4";
    ParseShowNat(4);
  }

  /** `int("1_0") == 10`: a single underscore separates digits. */
  lemma ParseIntUnderscoreExample()
    ensures ParseInt("1_0") == Ok(10)
  {
    assert Numeral("1_0") && NumeralValue("1_0") == 10 by {
      assert DropUnderscores("1_0") == "10";
      assert "10"[..1] == "1" && "1"[..0] == "";
    }
    StripUnpadded("1_0");
    ParseUnsigned("1_0");
  }

  /** `int("-0_7") == -7`: a sign, a leading zero and an underscore. */
  lemma ParseIntSignedExample()
    ensures ParseInt("-0_7") == Ok(-7)
  {
    assert Numeral("0_7") && NumeralValue("0_7") == 7 by {
      assert DropUnderscores("0_7") == "07";
      assert "07"[..1] == "0" && "0"[..0] == "";
    }
    ParseNegative("0_7");
    assert "-" + "0_7" == "-0_7";
  }

  /** `int("1__0")`, `int("_1")` and `int("4 2")` raise. */
  lemma ParseIntRejects()
    ensures ParseInt("1__0").Err? && ParseInt("_1").Err? && ParseInt("4 2").Err?
  {
    StripUnpadded("1__0");
    assert "1__0"[1] == '_' && !IsDigit("1__0"[2]);
    StripUnpadded("_1");
    StripUnpadded("4 2");
    assert !IsDigit("4 2"[1]);
  }

  /** `str(value)`. */
  function Show(v: Value): string {
    match v
    case IntValue(n) => ShowInt(n)
    case StrValue(s) => s
  }

  // ---------------------------------------------------------------------------
  // Converters

  /** The converter `url_types[typeName](*args)` builds (web.py:172-177, 199). */
  function MakeConverter(typeName: string, args: seq<string>): (r: Result<Converter, WebError>)
    ensures r.Ok? <==> typeName == "any" || (args == [] && typeName in {"path", "str", "int"})
    ensures r.Ok? && typeName == "any" ==> r.value == AnyConverter(args)
    ensures r.Err? && typeName !in {"any", "path", "str", "int"} ==> r.error == UnknownConverter(typeName)
    ensures typeName in {"path", "str", "int"} && args != [] ==> r == Err(ConverterTakesNoArguments(typeName))
    ensures typeName == "path" && args == [] ==> r == Ok(PathConverter)
    ensures typeName == "str" && args == [] ==> r == Ok(StrConverter)
    ensures typeName == "int" && args == [] ==> r == Ok(IntConverter)
  {
    if typeName == "any" then Ok(AnyConverter(args))
    else if typeName !in {"path", "str", "int"} then Err(UnknownConverter(typeName))
    else if |args| > 0 then Err(ConverterTakesNoArguments(typeName))
    else if typeName == "path" then Ok(PathConverter)
    else if typeName == "str" then Ok(StrConverter)
    else Ok(IntConverter)
  }

  /**
   * The strings a converter's `to_pattern()` matches as a whole: `\d+`, `[^/]+`,
   * `.*` (which does not cross a newline) and the alternation of the options,
   * which is the empty pattern when there are none.
   */
  predicate SegmentMatches(c: Converter, s: string) {
    match c
    case IntConverter => |s| >= 1 && AllDigits(s)
    case StrConverter => |s| >= 1 && !Contains(s, '/')
    case PathConverter => !Contains(s, '\n')
    case AnyConverter(options) => if |options| == 0 then s == "" else s in options
  }

  /** `to_str` (web.py:116-117, 132-135, 145-146, 156-157). */
  function ToStr(c: Converter, v: Value, codec: UrlCodec): (r: Result<string, WebError>)
    ensures c.AnyConverter? ==> (r.Ok? <==> v.StrValue? && v.s in c.options)
    ensures c.AnyConverter? && r.Err? ==> r.error == NotAnOption
    ensures c.AnyConverter? && r.Ok? ==> r.value == codec.quote(v.s)
    ensures c.IntConverter? && v.IntValue? ==> r == Ok(ShowInt(v.n))
    ensures c.IntConverter? && v.StrValue? ==>
              r == (if ParseInt(v.s).Ok? then Ok(ShowInt(ParseInt(v.s).value)) else Err(NotAnInteger))
    ensures c.StrConverter? ==> r == Ok(codec.quote(Show(v)))
    ensures c.PathConverter? ==> r == Ok(codec.quotePath(Show(v)))
  {
    match c
    case IntConverter =>
      (match v
       case IntValue(n) => Ok(ShowInt(n))
       case StrValue(s) =>
         var p := ParseInt(s);
         if p.Ok? then Ok(ShowInt(p.value)) else Err(p.error))
    case AnyConverter(options) =>
      if v.StrValue? && v.s in options then Ok(codec.quote(v.s)) else Err(NotAnOption)
    case StrConverter => Ok(codec.quote(Show(v)))
    case PathConverter => Ok(codec.quotePath(Show(v)))
  }

  /**
   * `to_python` with PathConverter corrected to `unquote_plus(val)`; the rest of
   * the model uses this one.
   */
  function ToPython(c: Converter, s: string, codec: UrlCodec): (r: Result<Value, WebError>)
    ensures c.AnyConverter? ==> (r.Ok? <==> s in c.options)
    ensures c.AnyConverter? && r.Err? ==> r.error == UnmatchedOption
    ensures c.AnyConverter? && r.Ok? ==> r.value == StrValue(codec.unquote(s))
    ensures (c.StrConverter? || c.PathConverter?) ==> r == Ok(StrValue(codec.unquote(s)))
    ensures c.IntConverter? ==> (r.Ok? <==> ParseInt(s).Ok?)
    ensures c.IntConverter? && |s| >= 1 && AllDigits(s) ==> r == Ok(IntValue(DigitsValue(s)))
  {
    match c
    case IntConverter =>
      var p := ParseInt(s);
      if p.Ok? then Ok(IntValue(p.value)) else Err(p.error)
    case AnyConverter(options) =>
      if s in options then Ok(StrValue(codec.unquote(s))) else Err(UnmatchedOption)
    case StrConverter => Ok(StrValue(codec.unquote(s)))
    case PathConverter => Ok(StrValue(codec.unquote(s)))
  }

  /** `to_python` as written: PathConverter passes `safe='/'`, which `unquote_plus` rejects. */
  function ToPythonAsWritten(c: Converter, s: string, codec: UrlCodec): (r: Result<Value, WebError>)
    ensures !c.PathConverter? ==> r == ToPython(c, s, codec)
  {
    if c.PathConverter? then Err(UnexpectedKeyword) else ToPython(c, s, codec)
  }

  /** Every capture of a `<path:...>` placeholder raises as written, and converts once corrected. */
  lemma PathCaptureRaisesAsWritten(s: string, codec: UrlCodec)
    ensures ToPythonAsWritten(PathConverter, s, codec) == Err(UnexpectedKeyword)
    ensures ToPython(PathConverter, s, codec) == Ok(StrValue(codec.unquote(s)))
  {
  }

  /** For n >= 0 the int converter's `to_str` yields digits only and `to_python` recovers n. */
  lemma {:induction false} IntConverterRoundTrip(n: nat, codec: UrlCodec)
    ensures ToStr(IntConverter, IntValue(n), codec) == Ok(Digits(n))
    ensures SegmentMatches(IntConverter, Digits(n))
    ensures ToPython(IntConverter, Digits(n), codec) == Ok(IntValue(n))
  {
    DigitsRoundTrip(n);
  }

  // ---------------------------------------------------------------------------
  // Route patterns and compiled routes

  /** A route pattern as the placeholder regex of web.py:198 splits it. */
  datatype PatternPart =
    | Literal(text: string)
    | Placeholder(typeName: string, args: seq<string>, name: string)

  /** The compiled path expression: literal text and named captures. */
  datatype Segment = Text(text: string) | Capture(name: string, conv: Converter)

  /** The view function a route dispatches to, known by its `__name__`. */
  datatype Callback = Callback(fnName: string)

  /** `Route` (web.py:160-167); `path_placeholders` is `Placeholders(expression)`. */
  datatype Route = Route(
    name: string,
    methods: set<string>,
    callback: Callback,
    expression: seq<Segment>,
    pathFormat: string)

  /** Placeholder names of a path expression, in pattern order. */
  function Names(segs: seq<Segment>): (ns: seq<string>)
    ensures |ns| <= |segs|
  {
    if |segs| == 0 then []
    else if segs[0].Capture? then [segs[0].name] + Names(segs[1..])
    else Names(segs[1..])
  }

  predicate Distinct(ns: seq<string>) {
    forall i, j :: 0 <= i < j < |ns| ==> ns[i] != ns[j]
  }

  /** `set(route.path_placeholders)`. */
  function Placeholders(segs: seq<Segment>): (ks: set<string>)
    ensures forall n :: n in ks <==> n in Names(segs)
  {
    set n | n in Names(segs)
  }

  /** `len(route.path_placeholders)` for a route whose placeholder names are distinct. */
  function PlaceholderCount(r: Route): nat {
    |Names(r.expression)|
  }

  /** The path format of web.py:202, 206: literal text, and `{name}` for each placeholder. */
  function FormatOf(segs: seq<Segment>): string {
    if |segs| == 0 then ""
    else
      (match segs[0]
       case Text(t) => t
       case Capture(n, _) => "{" + n + "}") + FormatOf(segs[1..])
  }

  /** The first placeholder name that repeats an earlier one. */
  function FirstDuplicate(ns: seq<string>): (d: Option<string>)
    ensures d.None? <==> Distinct(ns)
    ensures d.Some? ==> exists i, j :: 0 <= i < j < |ns| && ns[i] == ns[j] == d.value
  {
    if |ns| == 0 then None
    else if ns[0] in ns[1..] then
      var j :| 0 <= j < |ns[1..]| && ns[1..][j] == ns[0];
      assert ns[j + 1] == ns[0];
      Some(ns[0])
    else
      var d := FirstDuplicate(ns[1..]);
      if d.Some? then
        var i, j :| 0 <= i < j < |ns[1..]| && ns[1..][i] == ns[1..][j] == d.value;
        assert ns[i + 1] == ns[j + 1];
        d
      else
        assert forall i, j :: 0 <= i < j < |ns| ==> ns[i] != ns[j] by {
          forall i, j | 0 <= i < j < |ns| ensures ns[i] != ns[j] {
            if i > 0 { assert ns[i] == ns[1..][i - 1] && ns[j] == ns[1..][j - 1]; }
            else { assert ns[j] in ns[1..]; }
          }
        }
        None
  }

  /** A route `compile_route` can produce. */
  predicate WellFormedRoute(r: Route) {
    Distinct(Names(r.expression)) && r.pathFormat == FormatOf(r.expression)
  }

  lemma FormatOfAppend(segs: seq<Segment>, s: Segment)
    ensures FormatOf(segs + [s]) == FormatOf(segs) + FormatOf([s])
  {
    if |segs| > 0 {
      assert (segs + [s])[1..] == segs[1..] + [s];
      FormatOfAppend(segs[1..], s);
    }
  }

  lemma NamesAppend(segs: seq<Segment>, s: Segment)
    ensures Names(segs + [s]) == Names(segs) + Names([s])
  {
    if |segs| > 0 {
      assert (segs + [s])[1..] == segs[1..] + [s];
      NamesAppend(segs[1..], s);
    }
  }

  /** Placeholder names of a pattern, in pattern order. */
  function PatternNames(pattern: seq<PatternPart>): seq<string> {
    if |pattern| == 0 then []
    else if pattern[0].Placeholder? then [pattern[0].name] + PatternNames(pattern[1..])
    else PatternNames(pattern[1..])
  }

  lemma PatternNamesAppend(pattern: seq<PatternPart>, p: PatternPart)
    ensures PatternNames(pattern + [p]) == PatternNames(pattern) + PatternNames([p])
  {
    if |pattern| > 0 {
      assert (pattern + [p])[1..] == pattern[1..] + [p];
      PatternNamesAppend(pattern[1..], p);
    }
  }

  /** The segment `compile_route` makes of one pattern part, or the error it raises. */
  function CompilePart(p: PatternPart): Result<Segment, WebError> {
    match p
    case Literal(t) => Ok(Text(t))
    case Placeholder(ty, args, n) =>
      var c := MakeConverter(ty, args);
      if c.Ok? then Ok(Capture(n, c.value)) else Err(c.error)
  }

  /**
   * `compile_route` (web.py:192-212): one segment per pattern part, the path
   * format built alongside, then the regex compilation that rejects a repeated
   * placeholder name.
   */
  method CompileRoute(pattern: seq<PatternPart>, name: string, methods: set<string>, callback: Callback)
    returns (r: Result<Route, WebError>)
    ensures r.Ok? <==> (forall k :: 0 <= k < |pattern| ==> CompilePart(pattern[k]).Ok?)
                       && Distinct(PatternNames(pattern))
    ensures r.Ok? ==> WellFormedRoute(r.value) && Names(r.value.expression) == PatternNames(pattern)
    ensures r.Ok? ==> r.value.name == name && r.value.methods == methods && r.value.callback == callback
    ensures r.Ok? ==> |r.value.expression| == |pattern|
                      && forall k :: 0 <= k < |pattern| ==> r.value.expression[k] == CompilePart(pattern[k]).value
    ensures r.Err? && r.error.DuplicatePlaceholder? ==>
              (forall k :: 0 <= k < |pattern| ==> CompilePart(pattern[k]).Ok?)
              && r.error.name in PatternNames(pattern)
    ensures r.Err? && !r.error.DuplicatePlaceholder? ==>
              exists k :: 0 <= k < |pattern| && CompilePart(pattern[k]) == Err(r.error)
                          && forall j :: 0 <= j < k ==> CompilePart(pattern[j]).Ok?
  {
    var expression: seq<Segment> := [];
    var pathFormat := "";
    var i := 0;
    while i < |pattern|
      invariant 0 <= i <= |pattern|
      invariant |expression| == i
      invariant forall k :: 0 <= k < i ==> CompilePart(pattern[k]) == Ok(expression[k])
      invariant pathFormat == FormatOf(expression)
      invariant Names(expression) == PatternNames(pattern[..i])
    {
      var part := CompilePart(pattern[i]);
      if part.Err? {
        // the converter lookup or construction raised
        if part.error.DuplicatePlaceholder? {
          assert false;
        }
        return Err(part.error);
      }
      FormatOfAppend(expression, part.value);
      NamesAppend(expression, part.value);
      assert pattern[..i + 1] == pattern[..i] + [pattern[i]];
      PatternNamesAppend(pattern[..i], pattern[i]);
      expression := expression + [part.value];
      pathFormat := pathFormat + FormatOf([part.value]);
      i := i + 1;
    }
    assert pattern[..i] == pattern;
    var dup := FirstDuplicate(Names(expression));
    if dup.Some? {
      assert dup.value in Names(expression);
      return Err(DuplicatePlaceholder(dup.value));
    }
    r := Ok(Route(name, methods, callback, expression, pathFormat));
  }

  // ---------------------------------------------------------------------------
  // Matching a path against a compiled route

  /** The character classes of `\d`, `[^/]` and `.`. */
  datatype CharClass = DigitClass | NotSlash | NotNewline

  predicate InClass(cc: CharClass, c: char) {
    match cc
    case DigitClass => IsDigit(c)
    case NotSlash => c != '/'
    case NotNewline => c != '\n'
  }

  /** Length of the longest prefix of `s` inside the class. */
  function Run(cc: CharClass, s: string): (k: nat)
    ensures k <= |s|
    ensures forall i :: 0 <= i < k ==> InClass(cc, s[i])
    ensures k < |s| ==> !InClass(cc, s[k])
  {
    if |s| > 0 && InClass(cc, s[0]) then 1 + Run(cc, s[1..]) else 0
  }

  /** Any prefix inside the class is no longer than the run. */
  lemma {:induction false} RunMax(cc: CharClass, s: string, k: nat)
    requires k <= |s| && forall i :: 0 <= i < k ==> InClass(cc, s[i])
    ensures k <= Run(cc, s)
  {
    if k > 0 {
      RunMax(cc, s[1..], k - 1);
    }
  }

  /** `hi, hi - 1, ..., lo`: the order a greedy quantifier gives back characters. */
  function Countdown(hi: nat, lo: nat): (ks: seq<nat>)
    decreases hi
    ensures forall k :: k in ks <==> lo <= k <= hi
    ensures forall i, j :: 0 <= i < j < |ks| ==> ks[i] > ks[j]
  {
    if hi < lo then [] else [hi] + (if hi == 0 then [] else Countdown(hi - 1, lo))
  }

  /** The options that are prefixes of `s`: the alternatives of `a|b|...` that match there, in order. */
  function Fitting(options: seq<string>, s: string): (fs: seq<string>)
    ensures forall o :: o in fs <==> o in options && |o| <= |s| && s[..|o|] == o
  {
    if |options| == 0 then []
    else
      var o := options[0];
      (if |o| <= |s| && s[..|o|] == o then [o] else []) + Fitting(options[1..], s)
  }

  /** Lengths of the options that are prefixes of `s`, in option order. */
  function PrefixLengths(options: seq<string>, s: string): (ks: seq<nat>)
    ensures forall k :: k in ks ==> k <= |s| && s[..k] in options
    ensures forall o :: o in options && |o| <= |s| && s[..|o|] == o ==> |o| in ks
    ensures |ks| == |Fitting(options, s)| && forall i :: 0 <= i < |ks| ==> ks[i] == |Fitting(options, s)[i]|
  {
    if |options| == 0 then []
    else
      var o := options[0];
      var rest := PrefixLengths(options[1..], s);
      var fits := |o| <= |s| && s[..|o|] == o;
      LengthsCons(o, fits, rest, Fitting(options[1..], s));
      if fits then [|o|] + rest else rest
  }

  /** Putting a fitting option in front keeps a list of lengths in step with the options. */
  lemma LengthsCons(o: string, fits: bool, rest: seq<nat>, fr: seq<string>)
    requires |rest| == |fr| && forall i :: 0 <= i < |rest| ==> rest[i] == |fr[i]|
    ensures var ks := if fits then [|o|] + rest else rest;
      var fs := (if fits then [o] else []) + fr;
      |ks| == |fs| && forall i :: 0 <= i < |ks| ==> ks[i] == |fs[i]|
  {
    if !fits {
      assert [] + fr == fr;
    }
  }

  /**
   * The capture lengths the regex engine tries, in order, for a placeholder
   * at the start of `s`: every prefix the converter's pattern matches, and
   * nothing else.
   */
  function Candidates(c: Converter, s: string): (ks: seq<nat>)
    ensures forall k :: k in ks ==> k <= |s| && SegmentMatches(c, s[..k])
    ensures forall k :: 0 <= k <= |s| && SegmentMatches(c, s[..k]) ==> k in ks
    ensures !c.AnyConverter? ==> forall i, j :: 0 <= i < j < |ks| ==> ks[i] > ks[j]
    ensures c.AnyConverter? && |c.options| > 0 ==>
              |ks| == |Fitting(c.options, s)| && forall i :: 0 <= i < |ks| ==> ks[i] == |Fitting(c.options, s)[i]|
  {
    match c
    case IntConverter =>
      var ks := Countdown(Run(DigitClass, s), 1);
      assert forall k :: 0 <= k <= |s| && SegmentMatches(c, s[..k]) ==> k <= Run(DigitClass, s) by {
        forall k | 0 <= k <= |s| && SegmentMatches(c, s[..k]) ensures k <= Run(DigitClass, s) {
          assert forall i :: 0 <= i < k ==> s[..k][i] == s[i];
          RunMax(DigitClass, s, k);
        }
      }
      ks
    case StrConverter =>
      var ks := Countdown(Run(NotSlash, s), 1);
      assert forall k :: 0 <= k <= |s| && SegmentMatches(c, s[..k]) ==> k <= Run(NotSlash, s) by {
        forall k | 0 <= k <= |s| && SegmentMatches(c, s[..k]) ensures k <= Run(NotSlash, s) {
          assert forall i :: 0 <= i < k ==> s[..k][i] == s[i];
          RunMax(NotSlash, s, k);
        }
      }
      assert forall k :: k in ks ==> !Contains(s[..k], '/') by {
        forall k | k in ks ensures !Contains(s[..k], '/') {
          assert forall i :: 0 <= i < k ==> s[..k][i] == s[i];
        }
      }
      ks
    case PathConverter =>
      var ks := Countdown(Run(NotNewline, s), 0);
      assert forall k :: 0 <= k <= |s| && SegmentMatches(c, s[..k]) ==> k <= Run(NotNewline, s) by {
        forall k | 0 <= k <= |s| && SegmentMatches(c, s[..k]) ensures k <= Run(NotNewline, s) {
          assert forall i :: 0 <= i < k ==> s[..k][i] == s[i];
          RunMax(NotNewline, s, k);
        }
      }
      assert forall k :: k in ks ==> !Contains(s[..k], '\n') by {
        forall k | k in ks ensures !Contains(s[..k], '\n') {
          assert forall i :: 0 <= i < k ==> s[..k][i] == s[i];
        }
      }
      ks
    case AnyConverter(options) =>
      if |options| == 0 then [0]
      else
        var ks := PrefixLengths(options, s);
        assert forall k :: 0 <= k <= |s| && s[..k] in options ==> k in ks by {
          forall k | 0 <= k <= |s| && s[..k] in options ensures k in ks {
            assert |s[..k]| == k;
          }
        }
        ks
  }

  /** `$` matches at the end of the path or just before a final newline. */
  predicate AtEnd(s: string) { s == "" || s == "\n" }

  /**
   * `re.match('^' + expression + '$', path)`: the captures of the first match
   * Python's backtracking engine finds, or None.
   */
  function Match(segs: seq<Segment>, path: string): (m: Option<map<string, string>>)
    ensures m.Some? ==> m.value.Keys == Placeholders(segs)
    decreases |segs|, 0, 0
  {
    if |segs| == 0 then
      if AtEnd(path) then Some(map[]) else None
    else
      match segs[0]
      case Text(t) =>
        if |t| <= |path| && path[..|t|] == t then Match(segs[1..], path[|t|..]) else None
      case Capture(n, c) =>
        TryCaptures(n, segs[1..], path, Candidates(c, path))
  }

  /** Try each candidate capture length in turn; the first that lets the rest match wins. */
  function TryCaptures(n: string, rest: seq<Segment>, path: string, ks: seq<nat>): (m: Option<map<string, string>>)
    requires forall k :: k in ks ==> k <= |path|
    ensures m.Some? ==> m.value.Keys == {n} + Placeholders(rest)
    decreases |rest|, 1, |ks|
  {
    if |ks| == 0 then None
    else
      assert ks[0] in ks;
      var m := Match(rest, path[ks[0]..]);
      assert forall k :: k in ks[1..] ==> k in ks;
      if m.Some? then Some(m.value[n := path[..ks[0]]]) else TryCaptures(n, rest, path, ks[1..])
  }

  /**
   * The candidates are tried in their order: a match comes from the first
   * length whose rest matches, and there is none when no length lets the
   * rest match.
   */
  lemma {:induction false} TryCapturesFirst(n: string, rest: seq<Segment>, path: string, ks: seq<nat>)
    requires forall i :: 0 <= i < |ks| ==> ks[i] <= |path|
    ensures TryCaptures(n, rest, path, ks).None? <==> forall i :: 0 <= i < |ks| ==> Match(rest, path[ks[i]..]).None?
    ensures TryCaptures(n, rest, path, ks).Some? ==>
              exists i :: 0 <= i < |ks| && Match(rest, path[ks[i]..]).Some?
                && (forall j :: 0 <= j < i ==> Match(rest, path[ks[j]..]).None?)
                && TryCaptures(n, rest, path, ks).value == Match(rest, path[ks[i]..]).value[n := path[..ks[i]]]
  {
    if |ks| > 0 {
      var t := ks[1..];
      assert forall i :: 1 <= i < |ks| ==> ks[i] == t[i - 1];
      TryCapturesFirst(n, rest, path, t);
      var m := Match(rest, path[ks[0]..]);
      if m.Some? {
        assert TryCaptures(n, rest, path, ks) == Some(m.value[n := path[..ks[0]]]);
      } else {
        assert TryCaptures(n, rest, path, ks) == TryCaptures(n, rest, path, t);
        if TryCaptures(n, rest, path, t).Some? {
          var i :| 0 <= i < |t| && Match(rest, path[t[i]..]).Some?
                && (forall j :: 0 <= j < i ==> Match(rest, path[t[j]..]).None?)
                && TryCaptures(n, rest, path, t).value == Match(rest, path[t[i]..]).value[n := path[..t[i]]];
          assert ks[i + 1] == t[i];
        }
      }
    }
  }

  /** The path a route's expression spells out with the given captures. */
  function Fill(segs: seq<Segment>, caps: map<string, string>): string
    requires Placeholders(segs) <= caps.Keys
  {
    if |segs| == 0 then ""
    else
      (match segs[0]
       case Text(t) => t
       case Capture(n, _) => caps[n]) + Fill(segs[1..], caps)
  }

  /** Every placeholder is captured, by a string its converter's pattern matches. */
  predicate ValidCaptures(segs: seq<Segment>, caps: map<string, string>) {
    |segs| == 0 ||
    ((segs[0].Capture? ==> segs[0].name in caps && SegmentMatches(segs[0].conv, caps[segs[0].name]))
     && ValidCaptures(segs[1..], caps))
  }

  lemma ValidCapturesNames(segs: seq<Segment>, caps: map<string, string>)
    requires ValidCaptures(segs, caps)
    ensures Placeholders(segs) <= caps.Keys
  {
    if |segs| > 0 {
      ValidCapturesNames(segs[1..], caps);
    }
  }

  /** ValidCaptures and Fill read only the captures of the expression's own placeholders. */
  lemma CapturesAgree(segs: seq<Segment>, a: map<string, string>, b: map<string, string>)
    requires Placeholders(segs) <= a.Keys && Placeholders(segs) <= b.Keys
    requires forall n :: n in Placeholders(segs) ==> a[n] == b[n]
    ensures ValidCaptures(segs, a) == ValidCaptures(segs, b)
    ensures Fill(segs, a) == Fill(segs, b)
  {
    if |segs| > 0 {
      CapturesAgree(segs[1..], a, b);
    }
  }

  lemma DistinctTail(segs: seq<Segment>)
    requires |segs| > 0 && Distinct(Names(segs))
    ensures Distinct(Names(segs[1..]))
    ensures segs[0].Capture? ==> segs[0].name !in Names(segs[1..])
  {
    var ns, rest := Names(segs), Names(segs[1..]);
    if segs[0].Capture? {
      assert ns == [segs[0].name] + rest;
      forall i, j | 0 <= i < j < |rest| ensures rest[i] != rest[j] {
        assert ns[i + 1] == rest[i] && ns[j + 1] == rest[j];
      }
      forall j | 0 <= j < |rest| ensures rest[j] != segs[0].name {
        assert ns[j + 1] == rest[j] && ns[0] == segs[0].name;
      }
    }
  }

  /**
   * Soundness of matching: the captures found cover exactly the placeholders,
   * each matches its converter's pattern, and filling them back in gives the
   * path (up to the final newline `$` lets through).
   */
  lemma {:induction false} MatchSound(segs: seq<Segment>, path: string)
    requires Distinct(Names(segs))
    requires Match(segs, path).Some?
    ensures var m := Match(segs, path).value;
      && m.Keys == Placeholders(segs)
      && ValidCaptures(segs, m)
      && (path == Fill(segs, m) || path == Fill(segs, m) + "\n")
    decreases |segs|, 0
  {
    if |segs| == 0 {
      return;
    }
    var rest := segs[1..];
    DistinctTail(segs);
    match segs[0]
    case Text(t) =>
      assert segs == [Text(t)] + rest;
      TextThenMatchSound(t, rest, path);
    case Capture(n, c) =>
      assert segs == [Capture(n, c)] + rest;
      TryCapturesSound(n, c, rest, path, Candidates(c, path));
  }

  /** Literal text followed by a matching rest gives the rest's captures, which stay sound. */
  lemma TextThenMatchSound(t: string, rest: seq<Segment>, path: string)
    requires Distinct(Names(rest))
    requires |t| <= |path| && path[..|t|] == t && Match(rest, path[|t|..]).Some?
    ensures var segs := [Text(t)] + rest;
      var m := Match(rest, path[|t|..]).value;
      && m.Keys == Placeholders(segs)
      && ValidCaptures(segs, m)
      && (path == Fill(segs, m) || path == Fill(segs, m) + "\n")
    decreases |rest|, 1, 0
  {
    var segs := [Text(t)] + rest;
    assert segs[1..] == rest;
    MatchSound(rest, path[|t|..]);
    assert Names(segs) == Names(rest);
    assert path == t + path[|t|..];
  }

  lemma {:induction false} TryCapturesSound(n: string, c: Converter, rest: seq<Segment>, path: string, ks: seq<nat>)
    requires Distinct(Names(rest)) && n !in Names(rest)
    requires forall k :: k in ks ==> k <= |path| && SegmentMatches(c, path[..k])
    requires TryCaptures(n, rest, path, ks).Some?
    ensures var segs := [Capture(n, c)] + rest;
      var m := TryCaptures(n, rest, path, ks).value;
      && m.Keys == Placeholders(segs)
      && ValidCaptures(segs, m)
      && (path == Fill(segs, m) || path == Fill(segs, m) + "\n")
    decreases |rest|, 1, |ks|
  {
    var k := ks[0];
    assert k in ks;
    if Match(rest, path[k..]).Some? {
      CaptureThenMatchSound(n, c, rest, path, k);
    } else {
      assert forall k :: k in ks[1..] ==> k in ks;
      TryCapturesSound(n, c, rest, path, ks[1..]);
    }
  }

  /** The first candidate length `k` that lets the rest match gives sound captures. */
  lemma CaptureThenMatchSound(n: string, c: Converter, rest: seq<Segment>, path: string, k: nat)
    requires Distinct(Names(rest)) && n !in Names(rest)
    requires k <= |path| && SegmentMatches(c, path[..k]) && Match(rest, path[k..]).Some?
    ensures var segs := [Capture(n, c)] + rest;
      var m := Match(rest, path[k..]).value[n := path[..k]];
      && m.Keys == Placeholders(segs)
      && ValidCaptures(segs, m)
      && (path == Fill(segs, m) || path == Fill(segs, m) + "\n")
    decreases |rest|, 1, 0
  {
    var segs := [Capture(n, c)] + rest;
    assert segs[1..] == rest;
    var m0 := Match(rest, path[k..]).value;
    MatchSound(rest, path[k..]);
    var m := m0[n := path[..k]];
    CapturesAgree(rest, m0, m);
    assert Names(segs) == [n] + Names(rest);
    assert ValidCaptures(segs, m);
    assert Fill(segs, m) == path[..k] + Fill(rest, m0);
    assert path == path[..k] + path[k..];
  }

  /**
   * Completeness of matching: whenever some captures the converters accept
   * spell out the path, the backtracking search finds a match.
   */
  lemma {:induction false} MatchComplete(segs: seq<Segment>, path: string, caps: map<string, string>)
    requires Placeholders(segs) <= caps.Keys
    requires ValidCaptures(segs, caps)
    requires path == Fill(segs, caps) || path == Fill(segs, caps) + "\n"
    ensures Match(segs, path).Some?
    decreases |segs|
  {
    if |segs| == 0 {
      return;
    }
    var rest := segs[1..];
    assert Placeholders(rest) <= Placeholders(segs);
    match segs[0]
    case Text(t) =>
      assert path[..|t|] == t;
      assert path[|t|..] == Fill(rest, caps) || path[|t|..] == Fill(rest, caps) + "\n";
      MatchComplete(rest, path[|t|..], caps);
    case Capture(n, c) =>
      var v := caps[n];
      assert path[..|v|] == v;
      assert path[|v|..] == Fill(rest, caps) || path[|v|..] == Fill(rest, caps) + "\n";
      MatchComplete(rest, path[|v|..], caps);
      TryCapturesFinds(n, rest, path, Candidates(c, path), |v|);
  }

  lemma {:induction false} TryCapturesFinds(n: string, rest: seq<Segment>, path: string, ks: seq<nat>, k: nat)
    requires forall j :: j in ks ==> j <= |path|
    requires k in ks && Match(rest, path[k..]).Some?
    ensures TryCaptures(n, rest, path, ks).Some?
    decreases |ks|
  {
    if ks[0] != k {
      assert forall j :: j in ks[1..] ==> j in ks;
      TryCapturesFinds(n, rest, path, ks[1..], k);
    }
  }

  // ---------------------------------------------------------------------------
  // Converting captures and arguments

  /**
   * The dict comprehension of web.py:218: each capture through its converter's
   * `to_python`, in placeholder order; the first conversion that raises
   * propagates.
   */
  function ConvertCaptures(segs: seq<Segment>, caps: map<string, string>, codec: UrlCodec)
    : (r: Result<map<string, Value>, WebError>)
    requires Placeholders(segs) <= caps.Keys
    ensures r.Err? <==> exists i :: 0 <= i < |segs| && segs[i].Capture? && segs[i].name in caps
                                    && ToPython(segs[i].conv, caps[segs[i].name], codec).Err?
    ensures r.Ok? ==> r.value.Keys == Placeholders(segs)
  {
    if |segs| == 0 then Ok(map[])
    else
      var tail := ConvertCaptures(segs[1..], caps, codec);
      assert forall i :: 1 <= i < |segs| ==> segs[i] == segs[1..][i - 1];
      match segs[0]
      case Text(_) => tail
      case Capture(n, c) =>
        var v := ToPython(c, caps[n], codec);
        if v.Err? then Err(v.error)
        else if tail.Err? then tail
        else Ok(tail.value[n := v.value])
  }

  /** After a successful match, only an `any` placeholder without options can fail to convert. */
  lemma ConvertFailsOnlyOnEmptyAny(segs: seq<Segment>, path: string, codec: UrlCodec)
    requires Distinct(Names(segs)) && Match(segs, path).Some?
    ensures Placeholders(segs) <= Match(segs, path).value.Keys
    ensures ConvertCaptures(segs, Match(segs, path).value, codec).Err? ==>
              exists i :: 0 <= i < |segs| && segs[i].Capture? && segs[i].conv == AnyConverter([])
  {
    MatchSound(segs, path);
    var m := Match(segs, path).value;
    if ConvertCaptures(segs, m, codec).Err? {
      var i :| 0 <= i < |segs| && segs[i].Capture? && segs[i].name in m
               && ToPython(segs[i].conv, m[segs[i].name], codec).Err?;
      ValidCapturesAt(segs, m, i);
    }
  }

  lemma ValidCapturesAt(segs: seq<Segment>, caps: map<string, string>, i: int)
    requires ValidCaptures(segs, caps) && 0 <= i < |segs| && segs[i].Capture?
    ensures segs[i].name in caps && SegmentMatches(segs[i].conv, caps[segs[i].name])
  {
    if i > 0 {
      ValidCapturesAt(segs[1..], caps, i - 1);
    }
  }

  /** The `to_str` dict of web.py:225, one entry per placeholder, first failure raising. */
  function ConvertArgs(segs: seq<Segment>, kwargs: map<string, Option<Value>>, codec: UrlCodec)
    : (r: Result<map<string, string>, WebError>)
    requires forall n :: n in Names(segs) ==> n in kwargs && kwargs[n].Some?
    ensures r.Err? <==> exists i :: 0 <= i < |segs| && segs[i].Capture?
                                    && segs[i].name in kwargs && kwargs[segs[i].name].Some?
                                    && ToStr(segs[i].conv, kwargs[segs[i].name].value, codec).Err?
    ensures r.Ok? ==> r.value.Keys == Placeholders(segs)
  {
    if |segs| == 0 then Ok(map[])
    else
      var tail := ConvertArgs(segs[1..], kwargs, codec);
      assert forall i :: 1 <= i < |segs| ==> segs[i] == segs[1..][i - 1];
      match segs[0]
      case Text(_) => tail
      case Capture(n, c) =>
        var v := ToStr(c, kwargs[n].value, codec);
        if v.Err? then Err(v.error)
        else if tail.Err? then tail
        else Ok(tail.value[n := v.value])
  }

  // ---------------------------------------------------------------------------
  // str.format on a path format

  /**
   * `fmt.format(**args)` on a format whose replacement fields are plain names:
   * `{{` and `}}` stand for braces, `{name}` for `args[name]`; a stray brace or
   * an unknown name raises.
   */
  function StrFormat(fmt: string, args: map<string, string>): (r: Result<string, WebError>)
    ensures r.Err? ==> r.error == BadFormat
    ensures BraceFree(fmt) ==> r == Ok(fmt)
    decreases |fmt|
  {
    if |fmt| == 0 then Ok("")
    else if fmt[0] == '{' then
      if |fmt| > 1 && fmt[1] == '{' then Prepend("{", StrFormat(fmt[2..], args))
      else
        var close := FindChar(fmt, '}', 1);
        if close == -1 || fmt[1..close] !in args then Err(BadFormat)
        else Prepend(args[fmt[1..close]], StrFormat(fmt[close + 1..], args))
    else if fmt[0] == '}' then
      if |fmt| > 1 && fmt[1] == '}' then Prepend("}", StrFormat(fmt[2..], args)) else Err(BadFormat)
    else
      BraceFreeTail(fmt);
      assert [fmt[0]] + fmt[1..] == fmt;
      Prepend([fmt[0]], StrFormat(fmt[1..], args))
  }

  function Prepend(s: string, r: Result<string, WebError>): Result<string, WebError> {
    if r.Ok? then Ok(s + r.value) else r
  }

  predicate BraceFree(s: string) { !Contains(s, '{') && !Contains(s, '}') }

  lemma BraceFreeTail(s: string)
    requires |s| > 0
    ensures BraceFree(s) ==> BraceFree(s[1..]) && s[0] != '{' && s[0] != '}'
  {
    if BraceFree(s) {
      forall i | 0 <= i < |s[1..]| ensures s[1..][i] != '{' && s[1..][i] != '}' {
        assert s[1..][i] == s[i + 1];
      }
    }
  }

  lemma {:induction false} StrFormatLiteral(lit: string, rest: string, args: map<string, string>)
    requires BraceFree(lit)
    ensures StrFormat(lit + rest, args) == Prepend(lit, StrFormat(rest, args))
    decreases |lit|
  {
    if |lit| > 0 {
      var fmt := lit + rest;
      BraceFreeTail(lit);
      assert StrFormat(fmt, args) == Prepend([lit[0]], StrFormat(lit[1..] + rest, args)) by {
        assert fmt[0] == lit[0];
        assert fmt[1..] == lit[1..] + rest;
      }
      StrFormatLiteral(lit[1..], rest, args);
      var r := StrFormat(rest, args);
      if r.Ok? {
        assert [lit[0]] + (lit[1..] + r.value) == lit + r.value by {
          assert lit == [lit[0]] + lit[1..];
        }
      }
    } else {
      assert lit + rest == rest;
      var r := StrFormat(rest, args);
      if r.Ok? {
        assert lit + r.value == r.value;
      }
    }
  }

  lemma StrFormatField(name: string, rest: string, args: map<string, string>)
    requires |name| > 0 && BraceFree(name) && name in args
    ensures StrFormat("{" + name + "}" + rest, args) == Prepend(args[name], StrFormat(rest, args))
  {
    var fmt := "{" + name + "}" + rest;
    assert fmt[1] == name[0];
    assert fmt[1] != '{';
    assert forall i :: 1 <= i < |name| + 1 ==> fmt[i] == name[i - 1];
    assert fmt[|name| + 1] == '}';
    var close := FindChar(fmt, '}', 1);
    assert close == |name| + 1;
    assert fmt[1..close] == name;
    assert fmt[close + 1..] == rest;
  }

  /**
   * Formatting a route's path format fills in its placeholders: for literal
   * text without braces, `path_format.format(**args)` is the path the route's
   * expression matches with `args` as captures.
   */
  lemma {:induction false} FormatFill(segs: seq<Segment>, args: map<string, string>)
    requires forall i :: 0 <= i < |segs| && segs[i].Text? ==> BraceFree(segs[i].text)
    requires forall i :: 0 <= i < |segs| && segs[i].Capture? ==> segs[i].name != [] && BraceFree(segs[i].name)
    requires Placeholders(segs) <= args.Keys
    ensures StrFormat(FormatOf(segs), args) == Ok(Fill(segs, args))
  {
    if |segs| > 0 {
      var rest := segs[1..];
      assert forall i :: 0 <= i < |rest| ==> rest[i] == segs[i + 1];
      assert Placeholders(rest) <= Placeholders(segs);
      FormatFill(rest, args);
      match segs[0]
      case Text(t) =>
        StrFormatLiteral(t, FormatOf(rest), args);
      case Capture(n, _) =>
        assert "{" + n + "}" + FormatOf(rest) == FormatOf(segs);
        StrFormatField(n, FormatOf(rest), args);
    }
  }

  // ---------------------------------------------------------------------------
  // Reverse routing

  /** A URL built by `url_for`: the formatted path and the leftover arguments. */
  datatype Link = Link(path: string, query: map<string, string>)

  /** `set(key for key, val in kwargs.items() if val is not None)` (web.py:222). */
  function Supplied(kwargs: map<string, Option<Value>>): (s: set<string>)
    ensures forall k :: k in s <==> k in kwargs && kwargs[k].Some?
  {
    set k | k in kwargs && kwargs[k].Some?
  }

  /** A route `url_for(name, **kwargs)` may use (web.py:224). */
  predicate Qualifies(r: Route, name: string, supplied: set<string>) {
    r.name == name && Placeholders(r.expression) <= supplied
  }

  /**
   * The route `url_for` settles on: the first qualifying route of
   * `sorted(routes, reverse=True, key=len(path_placeholders))`. The sort is
   * stable, so that is a qualifying route with the most placeholders, and the
   * earliest registered among those.
   */
  predicate IsChoice(routes: seq<Route>, i: int, name: string, supplied: set<string>) {
    && 0 <= i < |routes|
    && Qualifies(routes[i], name, supplied)
    && (forall j :: 0 <= j < |routes| && Qualifies(routes[j], name, supplied) ==>
          PlaceholderCount(routes[j]) <= PlaceholderCount(routes[i]))
    && (forall j :: 0 <= j < i && Qualifies(routes[j], name, supplied) ==>
          PlaceholderCount(routes[j]) < PlaceholderCount(routes[i]))
  }

  lemma ChoiceUnique(routes: seq<Route>, i: int, j: int, name: string, supplied: set<string>)
    requires IsChoice(routes, i, name, supplied) && IsChoice(routes, j, name, supplied)
    ensures i == j
  {
  }

  /** The query dict of web.py:226: every supplied argument that is not a placeholder, as `str()`. */
  function QueryOf(r: Route, kwargs: map<string, Option<Value>>): (q: map<string, string>)
    ensures q.Keys == Supplied(kwargs) - Placeholders(r.expression)
    ensures forall k :: k in q ==> q[k] == Show(kwargs[k].value)
  {
    map k | k in Supplied(kwargs) - Placeholders(r.expression) :: Show(kwargs[k].value)
  }

  /**
   * The arguments `url_for` is given split between the path and the query: the
   * chosen route's placeholders go into the path, every other supplied
   * argument into the query, and none into both.
   */
  lemma QuerySplitsArguments(r: Route, kwargs: map<string, Option<Value>>)
    requires Placeholders(r.expression) <= Supplied(kwargs)
    ensures QueryOf(r, kwargs).Keys !! Placeholders(r.expression)
    ensures QueryOf(r, kwargs).Keys + Placeholders(r.expression) == Supplied(kwargs)
  {
  }

  /**
   * Whenever some route of that name has all its placeholders supplied, one of
   * them is the choice, so `url_for` does not answer `None`.
   */
  lemma ChoiceExists(routes: seq<Route>, i: int, name: string, supplied: set<string>)
    requires 0 <= i < |routes| && Qualifies(routes[i], name, supplied)
    ensures exists c :: IsChoice(routes, c, name, supplied)
  {
    var c := BestInPrefix(routes, |routes|, i, name, supplied);
    assert IsChoice(routes, c, name, supplied);
  }

  /** The choice among the first `n` routes, given a qualifying route `i` among them. */
  lemma {:induction false} BestInPrefix(routes: seq<Route>, n: nat, i: int, name: string, supplied: set<string>)
    returns (c: int)
    requires n <= |routes| && 0 <= i < n && Qualifies(routes[i], name, supplied)
    ensures 0 <= c < n && Qualifies(routes[c], name, supplied)
    ensures forall j :: 0 <= j < n && Qualifies(routes[j], name, supplied) ==>
              PlaceholderCount(routes[j]) <= PlaceholderCount(routes[c])
    ensures forall j :: 0 <= j < c && Qualifies(routes[j], name, supplied) ==>
              PlaceholderCount(routes[j]) < PlaceholderCount(routes[c])
  {
    if i == n - 1 && forall j :: 0 <= j < n - 1 ==> !Qualifies(routes[j], name, supplied) {
      c := n - 1;
    } else {
      var k := i;
      if i == n - 1 {
        k :| 0 <= k < n - 1 && Qualifies(routes[k], name, supplied);
      }
      var best := BestInPrefix(routes, n - 1, k, name, supplied);
      if Qualifies(routes[n - 1], name, supplied)
         && PlaceholderCount(routes[n - 1]) > PlaceholderCount(routes[best]) {
        c := n - 1;
      } else {
        c := best;
      }
    }
  }

  /** What `url_for` returns once it has chosen route `r` (web.py:225-227). */
  function LinkFor(r: Route, kwargs: map<string, Option<Value>>, codec: UrlCodec)
    : (l: Result<Option<Link>, WebError>)
    requires Placeholders(r.expression) <= Supplied(kwargs)
    ensures l.Ok? ==> l.value.Some? && l.value.value.query == QueryOf(r, kwargs)
    ensures l.Ok? <==> ConvertArgs(r.expression, kwargs, codec).Ok?
                       && StrFormat(r.pathFormat, ConvertArgs(r.expression, kwargs, codec).value).Ok?
    ensures l.Ok? ==> l.value.value.path == StrFormat(r.pathFormat, ConvertArgs(r.expression, kwargs, codec).value).value
  {
    var args := ConvertArgs(r.expression, kwargs, codec);
    if args.Err? then Err(args.error)
    else
      var path := StrFormat(r.pathFormat, args.value);
      if path.Err? then Err(path.error)
      else Ok(Some(Link(path.value, QueryOf(r, kwargs))))
  }

  /**
   * For a well-formed route whose literal text holds no braces, the path of
   * the link is the route's expression spelled out with the converted
   * arguments, so building the link fails only when a conversion fails.
   */
  lemma LinkPathFills(r: Route, kwargs: map<string, Option<Value>>, codec: UrlCodec)
    requires Placeholders(r.expression) <= Supplied(kwargs)
    requires WellFormedRoute(r)
    requires forall i :: 0 <= i < |r.expression| && r.expression[i].Text? ==> BraceFree(r.expression[i].text)
    requires forall i :: 0 <= i < |r.expression| && r.expression[i].Capture? ==>
               r.expression[i].name != [] && BraceFree(r.expression[i].name)
    ensures LinkFor(r, kwargs, codec).Ok? <==> ConvertArgs(r.expression, kwargs, codec).Ok?
    ensures LinkFor(r, kwargs, codec).Ok? ==>
              LinkFor(r, kwargs, codec).value.value.path == Fill(r.expression, ConvertArgs(r.expression, kwargs, codec).value)
  {
    var args := ConvertArgs(r.expression, kwargs, codec);
    if args.Ok? {
      FormatFill(r.expression, args.value);
    }
  }

  /** `None` arguments are as good as absent: dropping them changes nothing `url_for` looks at. */
  lemma NoneArgumentsIgnored(r: Route, kwargs: map<string, Option<Value>>, codec: UrlCodec)
    requires Placeholders(r.expression) <= Supplied(kwargs)
    ensures var given := map k | k in kwargs && kwargs[k].Some? :: kwargs[k];
      && Supplied(given) == Supplied(kwargs)
      && LinkFor(r, given, codec) == LinkFor(r, kwargs, codec)
  {
    var given := map k | k in kwargs && kwargs[k].Some? :: kwargs[k];
    assert Supplied(given) == Supplied(kwargs);
    assert ConvertArgs(r.expression, given, codec) == ConvertArgs(r.expression, kwargs, codec) by {
      ConvertArgsAgree(r.expression, given, kwargs, codec);
    }
    assert QueryOf(r, given) == QueryOf(r, kwargs);
  }

  lemma ConvertArgsAgree(segs: seq<Segment>, a: map<string, Option<Value>>, b: map<string, Option<Value>>, codec: UrlCodec)
    requires forall n :: n in Names(segs) ==> n in a && n in b && a[n] == b[n] && a[n].Some?
    ensures ConvertArgs(segs, a, codec) == ConvertArgs(segs, b, codec)
  {
    if |segs| > 0 {
      assert forall n :: n in Names(segs[1..]) ==> n in Names(segs);
      ConvertArgsAgree(segs[1..], a, b, codec);
    }
  }

  /** `match_route`'s answer once route `r` has matched `path` (web.py:218). */
  function Dispatch(r: Route, path: string, codec: UrlCodec): (d: Result<Option<(Route, map<string, Value>)>, WebError>)
    requires Distinct(Names(r.expression)) && Match(r.expression, path).Some?
    ensures d.Ok? ==> d.value.Some? && d.value.value.0 == r && d.value.value.1.Keys == Placeholders(r.expression)
    ensures d.Err? ==> exists i :: 0 <= i < |r.expression| && r.expression[i].Capture?
                                   && r.expression[i].conv == AnyConverter([])
  {
    ConvertFailsOnlyOnEmptyAny(r.expression, path, codec);
    var args := ConvertCaptures(r.expression, Match(r.expression, path).value, codec);
    if args.Ok? then Ok(Some((r, args.value))) else Err(args.error)
  }

  // ---------------------------------------------------------------------------
  // The application

  /** `Application` (web.py:170-227): the routes in registration order. */
  class Application {
    var routes: seq<Route>

    ghost predicate Valid()
      reads this
    {
      forall i :: 0 <= i < |routes| ==> WellFormedRoute(routes[i])
    }

    constructor ()
      ensures Valid() && routes == []
    {
      routes := [];
    }

    /**
     * `@app.route(pattern, methods, name)` applied to a view function: compiles
     * the pattern and appends exactly one route; the name defaults to the
     * function's own. A pattern that does not compile raises and registers
     * nothing.
     */
    method Route(pattern: seq<PatternPart>, methods: set<string>, name: Option<string>, callback: Callback)
      returns (r: Result<Route, WebError>)
      requires Valid()
      modifies this
      ensures Valid()
      ensures r.Ok? ==> routes == old(routes) + [r.value]
      ensures r.Ok? ==> r.value.name == (if name.Some? && name.value != "" then name.value else callback.fnName)
      ensures r.Ok? ==> r.value.methods == methods && r.value.callback == callback
      ensures r.Ok? <==> (forall k :: 0 <= k < |pattern| ==> CompilePart(pattern[k]).Ok?)
                         && Distinct(PatternNames(pattern))
      ensures r.Ok? ==> WellFormedRoute(r.value) && |r.value.expression| == |pattern|
                        && forall k :: 0 <= k < |pattern| ==> r.value.expression[k] == CompilePart(pattern[k]).value
      ensures r.Err? ==> routes == old(routes)
    {
      var routeName := if name.Some? && name.value != "" then name.value else callback.fnName;
      r := CompileRoute(pattern, routeName, methods, callback);
      if r.Ok? {
        routes := routes + [r.value];
      }
    }

    /**
     * `match_route(path)` (web.py:214-219): the first route in registration
     * order whose expression matches the whole path, with its captures
     * converted; `None` when no route matches.
     */
    method MatchRoute(path: string, codec: UrlCodec)
      returns (r: Result<Option<(Route, map<string, Value>)>, WebError>)
      requires Valid()
      ensures (forall i :: 0 <= i < |routes| ==> Match(routes[i].expression, path).None?) ==> r == Ok(None)
      ensures forall i :: 0 <= i < |routes| && Match(routes[i].expression, path).Some?
                          && (forall j :: 0 <= j < i ==> Match(routes[j].expression, path).None?) ==>
                r == Dispatch(routes[i], path, codec)
    {
      var i := 0;
      while i < |routes|
        invariant 0 <= i <= |routes|
        invariant forall j :: 0 <= j < i ==> Match(routes[j].expression, path).None?
      {
        var route := routes[i];
        var m := Match(route.expression, path);
        if m.Some? {
          return Dispatch(route, path, codec);
        }
        i := i + 1;
      }
      return Ok(None);
    }

    /**
     * `url_for(name, **kwargs)` (web.py:221-227): the chosen route's path with
     * its placeholders filled in, the other supplied arguments as the query;
     * `None` when no route of that name has all its placeholders supplied.
     */
    method UrlFor(name: string, kwargs: map<string, Option<Value>>, codec: UrlCodec)
      returns (r: Result<Option<Link>, WebError>)
      requires Valid()
      ensures (forall i :: 0 <= i < |routes| ==> !Qualifies(routes[i], name, Supplied(kwargs))) ==> r == Ok(None)
      ensures forall i :: IsChoice(routes, i, name, Supplied(kwargs)) ==> r == LinkFor(routes[i], kwargs, codec)
    {
      var supplied := Supplied(kwargs);
      var best := -1;
      var i := 0;
      while i < |routes|
        invariant 0 <= i <= |routes|
        invariant -1 <= best < i
        invariant best == -1 ==> forall j :: 0 <= j < i ==> !Qualifies(routes[j], name, supplied)
        invariant best != -1 ==> Qualifies(routes[best], name, supplied)
        invariant best != -1 ==> forall j :: 0 <= j < i && Qualifies(routes[j], name, supplied) ==>
                                   PlaceholderCount(routes[j]) <= PlaceholderCount(routes[best])
        invariant best != -1 ==> forall j :: 0 <= j < best && Qualifies(routes[j], name, supplied) ==>
                                   PlaceholderCount(routes[j]) < PlaceholderCount(routes[best])
      {
        if Qualifies(routes[i], name, supplied)
           && (best == -1 || PlaceholderCount(routes[i]) > PlaceholderCount(routes[best])) {
          best := i;
        }
        i := i + 1;
      }
      if best == -1 {
        return Ok(None);
      }
      forall j | IsChoice(routes, j, name, supplied) ensures j == best {
        ChoiceUnique(routes, j, best, name, supplied);
      }
      r := LinkFor(routes[best], kwargs, codec);
    }
  }
}
