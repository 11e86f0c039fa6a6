/**
 * Rupee text: a grammar of what is well formed, the amount such text denotes, and what the
 * parser makes of well-formed and of all other text.
 */
module MoneyText {
  import opened Options
  import opened Decimal
  import opened Money

  // ----- The grammar --------------------------------------------------------------------------

  datatype Minus = NoMinus | Outside(gap: string) | Inside

  /** White space, a minus sign before or after the symbol, the rupee sign with white space
      behind it, digits with commas between them, a point with decimals, white space. */
  datatype Text = Text(lead: string, minus: Minus, symbol: Option<string>, whole: string, decimals: Option<string>, trail: string)

  predicate AllSpace(s: string) {
    forall i | 0 <= i < |s| :: IsSpace(s[i])
  }

  /** Digits and commas, at least one digit. */
  predicate IsWhole(s: string) {
    AllDigits(Without(s, ',')) && Without(s, ',') != ""
  }

  predicate WellFormed(t: Text) {
    && AllSpace(t.lead) && AllSpace(t.trail)
    && (t.minus.Outside? ==> AllSpace(t.minus.gap))
    && (t.minus.Inside? ==> t.symbol.Some?)
    && (t.symbol.Some? ==> AllSpace(t.symbol.value))
    && IsWhole(t.whole)
    && (t.decimals.Some? ==> AllDigits(t.decimals.value))
  }

  function Body(whole: string, decimals: Option<string>): string {
    whole + (if decimals.Some? then "." + decimals.value else "")
  }

  function AfterSign(t: Text): string {
    (if t.symbol.Some? then [RUPEE] + t.symbol.value else "") + ((if t.minus.Inside? then "-" else "") + Body(t.whole, t.decimals))
  }

  function Core(t: Text): string {
    (if t.minus.Outside? then "-" + t.minus.gap else "") + AfterSign(t)
  }

  function Show(t: Text): string {
    t.lead + Core(t) + t.trail
  }

  /** The first two decimals. */
  function Cents(decimals: Option<string>): nat
    requires decimals.Some? ==> AllDigits(decimals.value)
  {
    if decimals.None? || decimals.value == "" then 0
    else if |decimals.value| == 1 then Value(decimals.value) * 10
    else Value(decimals.value[..2])
  }

  /** The amount in paise a well-formed text denotes. */
  function Denotes(t: Text): int
    requires WellFormed(t)
  {
    var paise := Value(Without(t.whole, ',')) * 100 + Cents(t.decimals);
    if t.minus.NoMinus? then paise else 0 - paise
  }

  ghost predicate IsWellFormed(raw: string) {
    exists t :: WellFormed(t) && Show(t) == raw
  }

  // ----- How the parser takes a text apart --------------------------------------------------

  datatype Parts = Parts(outer: bool, inner: bool, body: string)

  function Unsigned(s: string): string {
    if s != "" && s[0] == '-' then TrimSpace(s[1..]) else s
  }

  function Split(raw: string): Parts {
    var s := TrimSpace(raw);
    var s2 := TrimSpace(StripSymbol(Unsigned(s)));
    var inner := s2 != "" && s2[0] == '-';
    Parts(s != "" && s[0] == '-', inner, if inner then s2[1..] else s2)
  }

  function WholeOf(body: string): string {
    body[..IndexOf(body, '.')]
  }

  function DecimalsOf(body: string): Option<string> {
    if IndexOf(body, '.') < |body| then Some(body[IndexOf(body, '.') + 1..]) else None
  }

  lemma SplitParses(raw: string)
    ensures var p := Split(raw);
            ParsePaise(raw) == ParsePlain(p.outer || p.inner, Without(p.body, ','))
  {
  }

  lemma {:induction false} WithoutKeeps(s: string, c: char, d: char)
    requires c != d
    ensures d in Without(s, c) <==> d in s
    ensures c !in Without(s, c)
  {
    if s != "" {
      WithoutKeeps(s[1..], c, d);
      assert s == [s[0]] + s[1..];
    }
  }

  /** The parser reads the digits before the point and the decimals behind it, each without its
      commas. */
  lemma BodyParses(negative: bool, body: string)
    ensures ParsePlain(negative, Without(body, ',')) ==
              Combine(negative, ParseInt(Without(WholeOf(body), ',')),
                      if DecimalsOf(body).Some? then ParseFraction(Without(DecimalsOf(body).value, ',')) else Some(0))
  {
    var whole := WholeOf(body);
    WithoutKeeps(whole, ',', '.');
    if DecimalsOf(body).Some? {
      var decimals := DecimalsOf(body).value;
      assert body == whole + ("." + decimals);
      WithoutConcat(whole, "." + decimals, ',');
      assert ("." + decimals)[1..] == decimals;
      assert Without(body, ',') == Without(whole, ',') + "." + Without(decimals, ',');
      PointSplits(negative, Without(whole, ','), Without(decimals, ','));
    } else {
      assert whole == body;
      NoPoint(negative, Without(body, ','));
    }
  }

  lemma NoPoint(negative: bool, s: string)
    requires '.' !in s
    ensures ParsePlain(negative, s) == Combine(negative, ParseInt(s), Some(0))
  {
    var dot := IndexOf(s, '.');
    assert dot == |s| && s[..dot] == s;
  }

  // ----- White space ----------------------------------------------------------------------------

  /** Not empty, and no white space at either end. */
  predicate Firm(s: string) {
    s != "" && !IsSpace(s[0]) && !IsSpace(s[|s| - 1])
  }

  lemma {:induction false} TrimLeftPast(lead: string, s: string)
    requires AllSpace(lead)
    ensures TrimLeft(lead + s) == TrimLeft(s)
    decreases |lead|
  {
    if lead == "" {
      assert lead + s == s;
    } else {
      assert (lead + s)[1..] == lead[1..] + s;
      TrimLeftPast(lead[1..], s);
    }
  }

  lemma {:induction false} TrimRightPast(s: string, trail: string)
    requires AllSpace(trail)
    ensures TrimRight(s + trail) == TrimRight(s)
    decreases |trail|
  {
    if trail == "" {
      assert s + trail == s;
    } else {
      var n := |trail| - 1;
      assert (s + trail)[..|s + trail| - 1] == s + trail[..n];
      TrimRightPast(s, trail[..n]);
    }
  }

  lemma TrimAround(lead: string, core: string, trail: string)
    requires AllSpace(lead) && AllSpace(trail) && Firm(core)
    ensures TrimSpace(lead + core + trail) == core
  {
    assert lead + core + trail == lead + (core + trail);
    TrimLeftPast(lead, core + trail);
    TrimRightPast(core, trail);
  }

  lemma {:induction false} LeftSplits(s: string) returns (lead: string)
    ensures s == lead + TrimLeft(s) && AllSpace(lead)
    ensures TrimLeft(s) != "" ==> !IsSpace(TrimLeft(s)[0])
  {
    lead := "";
    if s != "" && IsSpace(s[0]) {
      var rest := LeftSplits(s[1..]);
      lead := [s[0]] + rest;
    }
  }

  lemma {:induction false} RightSplits(s: string) returns (trail: string)
    ensures s == TrimRight(s) + trail && AllSpace(trail)
    ensures TrimRight(s) != "" ==> !IsSpace(TrimRight(s)[|TrimRight(s)| - 1]) && TrimRight(s)[0] == s[0]
  {
    trail := "";
    if s != "" && IsSpace(s[|s| - 1]) {
      var rest := RightSplits(s[..|s| - 1]);
      trail := rest + [s[|s| - 1]];
    }
  }

  /** Trimming takes white space off both ends, and all of it. */
  lemma TrimSplits(s: string) returns (lead: string, trail: string)
    ensures s == lead + TrimSpace(s) + trail && AllSpace(lead) && AllSpace(trail)
    ensures TrimSpace(s) == "" || Firm(TrimSpace(s))
  {
    lead := LeftSplits(s);
    trail := RightSplits(TrimLeft(s));
  }

  // ----- Well-formed text is taken apart as it is put together --------------------------------

  lemma PointAt(whole: string, decimals: string)
    requires '.' !in whole
    ensures var body := whole + ("." + decimals);
            WholeOf(body) == whole && DecimalsOf(body) == Some(decimals)
  {
    var body := whole + ("." + decimals);
    assert body[|whole|] == '.' && forall j | 0 <= j < |whole| :: body[j] in whole;
    assert IndexOf(body, '.') == |whole|;
    assert body[|whole| + 1..] == decimals && body[..|whole|] == whole;
  }

  lemma PointMissing(whole: string)
    requires '.' !in whole
    ensures WholeOf(whole) == whole && DecimalsOf(whole) == None
  {
    assert IndexOf(whole, '.') == |whole|;
    assert whole[..|whole|] == whole;
  }

  lemma BodyFirm(whole: string, decimals: Option<string>)
    requires IsWhole(whole) && (decimals.Some? ==> AllDigits(decimals.value))
    ensures var body := Body(whole, decimals);
            Firm(body) && body[0] != '-' && body[0] != RUPEE && WholeOf(body) == whole && DecimalsOf(body) == decimals
  {
    WholeChars(whole);
    assert whole[0] in whole && whole[|whole| - 1] in whole;
    if decimals.Some? {
      PointAt(whole, decimals.value);
    } else {
      assert Body(whole, decimals) == whole;
      PointMissing(whole);
    }
  }

  lemma WholeChars(s: string)
    requires IsWhole(s)
    ensures s != "" && forall c | c in s :: c == ',' || IsDigit(c)
  {
    forall c | c in s ensures c == ',' || IsDigit(c) {
      if c != ',' {
        WithoutKeeps(s, ',', c);
      }
    }
  }

  /** White space in front of a firm text is trimmed. */
  lemma TrimFront(gap: string, rest: string)
    requires AllSpace(gap) && Firm(rest)
    ensures TrimSpace(gap + rest) == rest
  {
    TrimAround(gap, rest, "");
    assert gap + rest + "" == gap + rest;
  }

  lemma SymbolStripped(gap: string, rest: string)
    requires AllSpace(gap) && Firm(rest)
    ensures Firm([RUPEE] + gap + rest) && TrimSpace(StripSymbol([RUPEE] + gap + rest)) == rest
  {
    assert ([RUPEE] + gap + rest)[1..] == gap + rest;
    TrimFront(gap, rest);
  }

  lemma SignStripped(gap: string, rest: string)
    requires AllSpace(gap) && Firm(rest)
    ensures Firm("-" + gap + rest) && Unsigned("-" + gap + rest) == rest
  {
    assert ("-" + gap + rest)[1..] == gap + rest;
    TrimFront(gap, rest);
  }

  /** What follows the symbol. */
  function AfterSymbolText(t: Text): string {
    (if t.minus.Inside? then "-" else "") + Body(t.whole, t.decimals)
  }

  lemma AfterSymbolFirm(t: Text)
    requires WellFormed(t)
    ensures var s := AfterSymbolText(t);
            && Firm(s) && s[0] != RUPEE && (s[0] == '-' <==> t.minus.Inside?)
            && (if t.minus.Inside? then s[1..] else s) == Body(t.whole, t.decimals)
  {
    BodyFirm(t.whole, t.decimals);
    var body := Body(t.whole, t.decimals);
    if t.minus.Inside? {
      assert ("-" + body)[1..] == body && ("-" + body)[|body|] == body[|body| - 1];
    } else {
      assert "" + body == body;
    }
  }

  lemma AfterSignFirm(t: Text)
    requires WellFormed(t)
    ensures Firm(AfterSign(t)) && AfterSign(t)[0] != '-'
    ensures TrimSpace(StripSymbol(AfterSign(t))) == AfterSymbolText(t)
  {
    AfterSymbolFirm(t);
    if t.symbol.Some? {
      SymbolStripped(t.symbol.value, AfterSymbolText(t));
    } else {
      assert AfterSign(t) == AfterSymbolText(t);
      TrimNothing(AfterSymbolText(t));
    }
  }

  lemma CoreFirm(t: Text)
    requires WellFormed(t)
    ensures Firm(Core(t)) && (Core(t)[0] == '-' <==> t.minus.Outside?) && Unsigned(Core(t)) == AfterSign(t)
  {
    AfterSignFirm(t);
    if t.minus.Outside? {
      SignStripped(t.minus.gap, AfterSign(t));
    } else {
      assert Core(t) == AfterSign(t);
    }
  }

  lemma SplitBy(raw: string, core: string, after: string, last: string)
    requires TrimSpace(raw) == core != "" && Unsigned(core) == after && TrimSpace(StripSymbol(after)) == last != ""
    ensures Split(raw) == Parts(core[0] == '-', last[0] == '-', if last[0] == '-' then last[1..] else last)
  {
  }

  lemma ShowSplits(t: Text)
    requires WellFormed(t)
    ensures Split(Show(t)) == Parts(t.minus.Outside?, t.minus.Inside?, Body(t.whole, t.decimals))
  {
    CoreFirm(t);
    TrimAround(t.lead, Core(t), t.trail);
    AfterSignFirm(t);
    AfterSymbolFirm(t);
    SplitBy(Show(t), Core(t), AfterSign(t), AfterSymbolText(t));
  }

  // ----- What the parser makes of well-formed text ------------------------------------------

  lemma DigitsParse(s: string)
    requires s != "" && AllDigits(s)
    ensures ',' !in s && ParseInt(s) == if Value(s) <= MAX_INT64 then Some(Value(s)) else None
  {
    ParseUnsigned(s);
  }

  lemma TwoDigitsSmall(s: string)
    requires AllDigits(s) && |s| == 2
    ensures Value(s) < 100
  {
    assert s[..1][..0] == "";
    assert Value(s[..1]) == (s[0] - '0') as nat;
  }

  lemma CentsParse(decimals: string)
    requires AllDigits(decimals)
    ensures Without(decimals, ',') == decimals && ParseFraction(decimals) == Some(Cents(Some(decimals)))
    ensures Cents(Some(decimals)) < 100
  {
    WithoutAbsent(decimals, ',');
    if |decimals| == 1 {
      DigitsParse(decimals);
      assert decimals[..0] == "";
    } else if |decimals| >= 2 {
      TwoDigitsSmall(decimals[..2]);
      DigitsParse(decimals[..2]);
    }
  }

  /** What the parser makes of a body that is well formed. */
  lemma BodyExact(negative: bool, whole: string, decimals: Option<string>)
    requires IsWhole(whole) && (decimals.Some? ==> AllDigits(decimals.value))
    ensures var d := Value(Without(whole, ','));
            ParsePlain(negative, Without(Body(whole, decimals), ',')) ==
              Combine(negative, if d <= MAX_INT64 then Some(d) else None, Some(Cents(decimals)))
  {
    BodyParses(negative, Body(whole, decimals));
    BodyFirm(whole, decimals);
    DigitsParse(Without(whole, ','));
    if decimals.Some? {
      CentsParse(decimals.value);
    }
  }

  lemma CentsSmall(decimals: Option<string>)
    requires decimals.Some? ==> AllDigits(decimals.value)
    ensures Cents(decimals) < 100
  {
    if decimals.Some? {
      CentsParse(decimals.value);
    }
  }

  /** A result is exact, refused or wrapped as the amount and the rupees in it dictate. */
  ghost predicate ReadAs(r: Option<int>, rupees: nat, paise: int) {
    && (r == None <==> rupees > MAX_INT64)
    && (r == Some(paise) <==> IsInt64(paise))
    && (r != None ==> r == Some(Wrap(paise)))
  }

  lemma ShowParses(t: Text)
    requires WellFormed(t)
    ensures var d := Value(Without(t.whole, ','));
            ParsePaise(Show(t)) ==
              Combine(!t.minus.NoMinus?, if d <= MAX_INT64 then Some(d) else None, Some(Cents(t.decimals)))
  {
    ShowSplits(t);
    SplitParses(Show(t));
    BodyExact(!t.minus.NoMinus?, t.whole, t.decimals);
  }

  /**
   * Every well-formed text is refused exactly when its rupees exceed 64 bits, read as the
   * amount it denotes exactly when that fits into 64 bits, and otherwise read as that amount
   * wrapped around.
   */
  lemma WellFormedExact(t: Text)
    requires WellFormed(t)
    ensures ReadAs(ParsePaise(Show(t)), Value(Without(t.whole, ',')), Denotes(t))
  {
    ShowParses(t);
    CentsSmall(t.decimals);
    var d, c := Value(Without(t.whole, ',')), Cents(t.decimals);
    CombineReads(ParsePaise(Show(t)), !t.minus.NoMinus?, d, c, Denotes(t));
  }

  /** A well-formed amount that does not fit although its rupees do is accepted with another
      value: from 92233720368547758 rupees and 8 or 9 paise on, depending on the sign. */
  lemma LargeAmountsMisread(t: Text)
    requires WellFormed(t) && Value(Without(t.whole, ',')) <= MAX_INT64 && !IsInt64(Denotes(t))
    ensures ParsePaise(Show(t)).Some? && ParsePaise(Show(t)) != Some(Denotes(t))
  {
    WellFormedExact(t);
  }

  lemma CombineReads(r: Option<int>, negative: bool, d: nat, c: nat, paise: int)
    requires c < 100 && r == Combine(negative, if d <= MAX_INT64 then Some(d) else None, Some(c))
    requires paise == if negative then 0 - (d * 100 + c) else d * 100 + c
    ensures ReadAs(r, d, paise)
  {
    CombineExact(negative, d, c);
  }

  lemma CombineExact(negative: bool, d: nat, c: nat)
    requires c < 100
    ensures ReadAs(Combine(negative, if d <= MAX_INT64 then Some(d) else None, Some(c)), d,
                   if negative then 0 - (d * 100 + c) else d * 100 + c)
  {
    WrapNegated(d * 100 + c);
  }

  lemma WrapNegated(x: int)
    ensures Wrap(0 - Wrap(x)) == Wrap(0 - x)
  {
  }

  // ----- Which text is well formed --------------------------------------------------------------

  predicate IsBody(body: string) {
    IsWhole(WholeOf(body)) && (DecimalsOf(body).Some? ==> AllDigits(DecimalsOf(body).value))
  }

  lemma BodyRebuilt(body: string)
    ensures Body(WholeOf(body), DecimalsOf(body)) == body
  {
    var dot := IndexOf(body, '.');
    if dot < |body| {
      assert body == body[..dot] + ("." + body[dot + 1..]);
    }
  }

  /** White space behind the first character of a firm text. */
  lemma GapBehind(s: string) returns (gap: string)
    requires Firm(s) && TrimSpace(s[1..]) != ""
    ensures s == [s[0]] + gap + TrimSpace(s[1..]) && AllSpace(gap) && Firm(TrimSpace(s[1..]))
  {
    var trail;
    gap, trail := TrimSplits(s[1..]);
    assert trail == "";
    assert s == [s[0]] + s[1..];
  }

  /** What is left of a text behind its outer sign: firm, and without a sign unless one was
      there before. */
  lemma SignTaken(core: string) returns (minus: Minus)
    requires Firm(core) && Unsigned(core) != ""
    ensures Firm(Unsigned(core)) && !minus.Inside?
    ensures minus.Outside? <==> core[0] == '-'
    ensures minus.Outside? ==> AllSpace(minus.gap) && core == "-" + minus.gap + Unsigned(core)
    ensures minus.NoMinus? ==> core == Unsigned(core)
  {
    minus := NoMinus;
    if core[0] == '-' {
      var gap := GapBehind(core);
      minus := Outside(gap);
    }
  }

  lemma SymbolTaken(after: string) returns (symbol: Option<string>)
    requires Firm(after) && TrimSpace(StripSymbol(after)) != ""
    ensures var last := TrimSpace(StripSymbol(after));
            && Firm(last)
            && (symbol.Some? ==> AllSpace(symbol.value) && after == [RUPEE] + symbol.value + last)
            && (symbol.None? ==> after == last)
  {
    if after[0] == RUPEE {
      var gap := GapBehind(after);
      symbol := Some(gap);
    } else {
      TrimNothing(after);
      symbol := None;
    }
  }

  lemma EmptyBody()
    ensures !IsBody("")
  {
  }

  /** A text the parser takes apart into at most one sign and a body in order is well formed. */
  lemma Rebuild(raw: string) returns (t: Text)
    requires var p := Split(raw); !(p.outer && p.inner) && IsBody(p.body)
    ensures WellFormed(t) && Show(t) == raw
  {
    EmptyBody();
    var core := TrimSpace(raw);
    var lead, trail := TrimSplits(raw);
    var after := Unsigned(core);
    var last := TrimSpace(StripSymbol(after));
    var p := Split(raw);
    assert last != "";
    NotEmpty(raw);
    var minus := SignTaken(core);
    var symbol := SymbolTaken(after);
    BodyRebuilt(p.body);
    t := Text(lead, if p.inner then Inside else minus, symbol, WholeOf(p.body), DecimalsOf(p.body), trail);
    RebuildCore(t, core, after, last, p, minus);
  }

  lemma NotEmpty(raw: string)
    requires TrimSpace(StripSymbol(Unsigned(TrimSpace(raw)))) != ""
    ensures TrimSpace(raw) != "" && Unsigned(TrimSpace(raw)) != ""
  {
  }

  lemma RebuildCore(t: Text, core: string, after: string, last: string, p: Parts, minus: Minus)
    requires Firm(core) && Firm(after) && Firm(last) && !minus.Inside? && (minus.Outside? <==> core[0] == '-')
    requires if minus.Outside? then core == "-" + minus.gap + after else core == after
    requires if t.symbol.Some? then after == [RUPEE] + t.symbol.value + last else after == last
    requires p == Parts(core[0] == '-', last[0] == '-', if last[0] == '-' then last[1..] else last)
    requires !(p.outer && p.inner) && p.body == Body(t.whole, t.decimals)
    requires t.minus == if p.inner then Inside else minus
    ensures Core(t) == core && (t.minus.Inside? ==> t.symbol.Some?)
  {
    assert AfterSymbolText(t) == last;
    assert AfterSign(t) == after;
  }

  /** Well formed is exactly the text that the parser takes apart into at most one minus sign,
      digits with commas, and decimals. */
  lemma GrammarExact(raw: string)
    ensures IsWellFormed(raw) <==> var p := Split(raw); !(p.outer && p.inner) && IsBody(p.body)
  {
    if IsWellFormed(raw) {
      var t :| WellFormed(t) && Show(t) == raw;
      ShowSplits(t);
      BodyFirm(t.whole, t.decimals);
    }
    var p := Split(raw);
    if !(p.outer && p.inner) && IsBody(p.body) {
      var t := Rebuild(raw);
    }
  }

  // ----- Which other text is accepted -----------------------------------------------------------

  predicate Signed(s: string) {
    s != "" && (s[0] == '-' || s[0] == '+')
  }

  /** At least one digit, perhaps behind a sign, within 64 bits. */
  predicate IsNumber(s: string) {
    var digits := if Signed(s) then s[1..] else s;
    digits != "" && AllDigits(digits) && Value(digits) <= if s[0] == '-' then MAX_INT64 + 1 else MAX_INT64
  }

  /** Nothing, a digit, or a digit or sign and a digit, and anything behind them. */
  predicate IsFraction(s: string) {
    || s == ""
    || (|s| == 1 && IsDigit(s[0]))
    || (|s| >= 2 && IsDigit(s[1]) && (IsDigit(s[0]) || s[0] == '-' || s[0] == '+'))
  }

  /** Commas aside: a number, then nothing or a point and a fraction. */
  predicate Readable(body: string) {
    && IsNumber(Without(WholeOf(body), ','))
    && (DecimalsOf(body).Some? ==> IsFraction(Without(DecimalsOf(body).value, ',')))
  }

  lemma NumberExact(s: string)
    ensures ParseInt(s).Some? <==> IsNumber(s)
  {
  }

  lemma TwoCharacters(a: char, b: char)
    ensures ParseInt([a, b]).Some? <==> IsDigit(b) && (IsDigit(a) || a == '-' || a == '+')
  {
    var s := [a, b];
    assert s[1..] == [b] && s[0] == a && s[1] == b;
    if IsDigit(b) {
      assert [b][..0] == "" && Value([b]) < 10;
      if IsDigit(a) {
        assert s[..1] == [a] && [a][..0] == "" && Value([a]) < 10 && Value(s) < 100;
      }
    }
  }

  lemma FractionExact(s: string)
    ensures ParseFraction(s).Some? <==> IsFraction(s)
  {
    if |s| == 1 {
      assert s[1..] == "" && s[..0] == "";
      if IsDigit(s[0]) {
        assert Value(s) < 10;
      }
    } else if |s| >= 2 {
      assert s[..2] == [s[0], s[1]];
      TwoCharacters(s[0], s[1]);
    }
  }

  lemma AcceptedExact(raw: string)
    ensures ParsePaise(raw).Some? <==> Readable(Split(raw).body)
  {
    var p := Split(raw);
    SplitParses(raw);
    BodyParses(p.outer || p.inner, p.body);
    NumberExact(Without(WholeOf(p.body), ','));
    if DecimalsOf(p.body).Some? {
      FractionExact(Without(DecimalsOf(p.body).value, ','));
    }
  }

  lemma ReadableBody(body: string)
    requires Readable(body)
    ensures IsBody(body) <==> !Signed(Without(WholeOf(body), ',')) && (DecimalsOf(body).Some? ==> AllDigits(DecimalsOf(body).value))
  {
  }

  /**
   * Exactly which malformed texts are accepted, over all texts: the readable ones with a minus
   * sign on both sides of the symbol, with a further sign in front of the digits, or with
   * anything but digits behind the point.
   */
  lemma MalformedExact(raw: string)
    ensures ParsePaise(raw).Some? && !IsWellFormed(raw) <==>
              var p := Split(raw);
              var decimals := DecimalsOf(p.body);
              Readable(p.body) && ((p.outer && p.inner) || Signed(Without(WholeOf(p.body), ','))
                                   || (decimals.Some? && !AllDigits(decimals.value)))
  {
    AcceptedExact(raw);
    GrammarExact(raw);
    if Readable(Split(raw).body) {
      ReadableBody(Split(raw).body);
    }
  }

  lemma Sample(raw: string, whole: string, decimals: Option<string>)
    requires Firm(raw) && raw[0] != '-' && raw[0] != RUPEE && '.' !in whole && raw == Body(whole, decimals)
    ensures Split(raw) == Parts(false, false, raw) && WholeOf(raw) == whole && DecimalsOf(raw) == decimals
  {
    TrimNothing(raw);
    if decimals.Some? {
      PointAt(whole, decimals.value);
    } else {
      assert raw == whole;
      PointMissing(whole);
    }
  }

  /** The value of readable parts, if it fits. */
  lemma CombineFits(negative: bool, major: int, minor: int)
    requires IsInt64(major * 100 + minor) && IsInt64(0 - (major * 100 + minor))
    ensures Combine(negative, Some(major), Some(minor)) ==
              Some(if negative then 0 - (major * 100 + minor) else major * 100 + minor)
  {
  }

  /** The text is malformed and accepted with this value. */
  ghost predicate Mistaken(raw: string, value: int) {
    ParsePaise(raw) == Some(value) && !IsWellFormed(raw)
  }

  lemma ReadParts(raw: string, p: Parts, whole: string, decimals: Option<string>, major: int, minor: int)
    requires Split(raw) == p && WholeOf(p.body) == whole && DecimalsOf(p.body) == decimals
    requires ParseInt(Without(whole, ',')) == Some(major)
    requires (if decimals.Some? then ParseFraction(Without(decimals.value, ',')) else Some(0)) == Some(minor)
    requires IsInt64(major * 100 + minor) && IsInt64(0 - (major * 100 + minor))
    ensures ParsePaise(raw) == Some(if p.outer || p.inner then 0 - (major * 100 + minor) else major * 100 + minor)
  {
    SplitParses(raw);
    BodyParses(p.outer || p.inner, p.body);
    CombineFits(p.outer || p.inner, major, minor);
  }

  /** A text taken apart into readable parts that are not in order. */
  lemma Odd(raw: string, p: Parts, whole: string, decimals: Option<string>, major: int, minor: int, value: int)
    requires Split(raw) == p && WholeOf(p.body) == whole && DecimalsOf(p.body) == decimals
    requires ParseInt(Without(whole, ',')) == Some(major)
    requires (if decimals.Some? then ParseFraction(Without(decimals.value, ',')) else Some(0)) == Some(minor)
    requires (p.outer && p.inner) || Signed(Without(whole, ',')) || (decimals.Some? && !AllDigits(decimals.value))
    requires IsInt64(major * 100 + minor) && IsInt64(0 - (major * 100 + minor))
    requires value == if p.outer || p.inner then 0 - (major * 100 + minor) else major * 100 + minor
    ensures Mistaken(raw, value)
  {
    ReadParts(raw, p, whole, decimals, major, minor);
    AcceptedExact(raw);
    MalformedExact(raw);
  }

  /** Digits, a point, and readable decimals that are not all digits. */
  lemma OddDecimals(whole: string, decimals: string, minor: int, value: int)
    requires whole != "" && AllDigits(whole) && value == Value(whole) * 100 + minor
    requires decimals != "" && ',' !in decimals && !AllDigits(decimals) && !IsSpace(decimals[|decimals| - 1])
    requires ParseFraction(decimals) == Some(minor) && Value(whole) <= MAX_INT64 && IsInt64(value) && IsInt64(0 - value)
    ensures Mistaken(Body(whole, Some(decimals)), value)
  {
    var raw := Body(whole, Some(decimals));
    DigitsParse(whole);
    WithoutAbsent(whole, ',');
    WithoutAbsent(decimals, ',');
    Sample(raw, whole, Some(decimals));
    Odd(raw, Parts(false, false, raw), whole, Some(decimals), Value(whole), minor, value);
  }

  lemma MinusFive()
    ensures ',' !in "-5" && ParseFraction("-5") == Some(-5) && !AllDigits("-5") && !IsSpace("-5"[1])
  {
    OneDigit(5);
    assert "-5" == ['-', DigitChar(5)] && "-5"[..2] == "-5";
    assert !IsDigit("-5"[0]);
  }

  /** A minus sign behind the point is accepted, for every number of rupees. */
  lemma MinusBehindPoint(d: nat)
    requires d * 100 <= MAX_INT64
    ensures Mistaken(Body(Digits(d), Some("-5")), d * 100 - 5)
  {
    DigitsDenote(d);
    MinusFive();
    OddDecimals(Digits(d), "-5", -5, d * 100 - 5);
  }

  lemma JunkDecimals(a: nat, b: nat, junk: string)
    requires a < 10 && b < 10 && ',' !in junk && !AllDigits(junk)
    ensures var decimals := [DigitChar(a), DigitChar(b)] + junk;
            && !AllDigits(decimals) && ',' !in decimals && ParseFraction(decimals) == Some(a * 10 + b)
            && decimals[|decimals| - 1] == junk[|junk| - 1]
  {
    var decimals := [DigitChar(a), DigitChar(b)] + junk;
    TwoDigits(a, b);
    assert decimals[..2] == [DigitChar(a), DigitChar(b)];
    var i :| 0 <= i < |junk| && !IsDigit(junk[i]);
    assert decimals[i + 2] == junk[i];
  }

  /** Anything behind two decimals is accepted. */
  lemma JunkBehindDecimals(d: nat, a: nat, b: nat, junk: string)
    requires d * 100 + (a * 10 + b) <= MAX_INT64 && a < 10 && b < 10
    requires ',' !in junk && !AllDigits(junk) && !IsSpace(junk[|junk| - 1])
    ensures Mistaken(Body(Digits(d), Some([DigitChar(a), DigitChar(b)] + junk)), d * 100 + (a * 10 + b))
  {
    DigitsDenote(d);
    JunkDecimals(a, b, junk);
    OddDecimals(Digits(d), [DigitChar(a), DigitChar(b)] + junk, a * 10 + b, d * 100 + (a * 10 + b));
  }

  lemma ThreeMinusSplit(digits: string)
    requires digits != "" && AllDigits(digits)
    ensures Split("---" + digits) == Parts(true, true, "-" + digits)
    ensures WholeOf("-" + digits) == "-" + digits && DecimalsOf("-" + digits) == None
  {
    var raw := "---" + digits;
    TrimNothing(raw);
    assert raw[1..] == "--" + digits;
    TrimNothing("--" + digits);
    assert ("--" + digits)[1..] == "-" + digits;
    SplitBy(raw, raw, "--" + digits, "--" + digits);
    PointMissing("-" + digits);
  }

  lemma DoubleSign(raw: string, whole: string, v: nat, value: int)
    requires Split(raw) == Parts(true, true, whole) && WholeOf(whole) == whole && DecimalsOf(whole) == None
    requires ',' !in whole && ParseInt(whole) == Some(0 - v) && value == v * 100 <= MAX_INT64
    ensures Mistaken(raw, value)
  {
    WithoutAbsent(whole, ',');
    var major := 0 - v;
    assert major * 100 + 0 == 0 - value && IsInt64(value) && IsInt64(0 - value);
    Odd(raw, Parts(true, true, whole), whole, None, major, 0, value);
  }

  lemma NegativeNumber(digits: string, v: nat)
    requires digits != "" && AllDigits(digits) && v == Value(digits) && v * 100 <= MAX_INT64
    ensures ',' !in "-" + digits && ParseInt("-" + digits) == Some(0 - v)
  {
    ParseNegative(digits);
    assert ',' !in digits;
  }

  /** Three minus signs in front of rupees are accepted and read as none. */
  lemma ThreeMinusSigns(digits: string, value: int)
    requires digits != "" && AllDigits(digits) && value == Value(digits) * 100 <= MAX_INT64
    ensures Mistaken("---" + digits, value)
  {
    ThreeMinusSplit(digits);
    NegativeNumber(digits, Value(digits));
    DoubleSign("---" + digits, "-" + digits, Value(digits), value);
  }
}
