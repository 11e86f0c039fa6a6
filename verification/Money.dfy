/**
 * Money: 64-bit amounts in minor units, shown with a currency symbol and grouped digits, and
 * rupee text read back into paise.
 */
module Money {
  import opened Options
  import opened Decimal

  datatype Currency = INR | USD | EUR | Other(code: string)

  const RUPEE := '\U{20B9}'
  const EURO := '\U{20AC}'

  function Symbol(c: Currency): string {
    match c
    case INR => [RUPEE]
    case USD => "$"
    case EUR => [EURO]
    case Other(_) => ""
  }

  // ----- Grouping -------------------------------------------------------------------------------

  /** Groups of w, counted from the right. */
  function Groups(head: string, w: nat): string
    requires w >= 1
    decreases |head|
  {
    if |head| <= w then head else Groups(head[..|head| - w], w) + "," + head[|head| - w..]
  }

  /** The last three characters make one group, the others groups of w: lakhs and crores for
      w == 2, thousands for w == 3. */
  function Grouped(s: string, w: nat): string
    requires w >= 1
  {
    if |s| <= 3 then s else Groups(s[..|s| - 3], w) + "," + s[|s| - 3..]
  }

  function Join(parts: seq<string>): string {
    if parts == [] then "" else if |parts| == 1 then parts[0] else parts[0] + "," + Join(parts[1..])
  }

  /** The grouping loop, taking groups off the right end and putting them in front. */
  method Group(s: string, w: nat) returns (r: string)
    requires w >= 1
    ensures r == Grouped(s, w)
  {
    if |s| <= 3 {
      return s;
    }
    var tail := s[|s| - 3..];
    var head := s[..|s| - 3];
    ghost var whole := head;
    var groups: seq<string> := [];
    while |head| > w
      invariant head != ""
      invariant Groups(whole, w) == Groups(head, w) + (if groups == [] then "" else "," + Join(groups))
      decreases |head|
    {
      var last := head[|head| - w..];
      ghost var before := groups;
      assert Groups(head, w) == Groups(head[..|head| - w], w) + "," + last;
      groups := [last] + groups;
      head := head[..|head| - w];
      assert groups[1..] == before;
      assert Join(groups) == if before == [] then last else last + "," + Join(before);
    }
    assert ([head] + groups)[1..] == groups;
    groups := [head] + groups;
    return Join(groups) + "," + tail;
  }

  // ----- Formatting -----------------------------------------------------------------------------

  const MINOR_PER_MAJOR := 100

  function Amount(minor: int, w: nat): string
    requires w >= 1
  {
    var abs := if minor < 0 then Wrap(-minor) else minor;
    (if minor < 0 then "-" else "") +
    (Grouped(FormatInt(TruncDiv(abs, MINOR_PER_MAJOR)), w) + "." + Pad(TruncMod(abs, MINOR_PER_MAJOR), 2))
  }

  function Formatted(minor: int, c: Currency): string {
    if c.Other? then FormatInt(minor) + " " + c.code
    else Symbol(c) + Amount(minor, if c.INR? then 2 else 3)
  }

  method Format(minor: int, c: Currency) returns (r: string)
    requires IsInt64(minor)
    ensures r == Formatted(minor, c)
  {
    if c.Other? {
      return FormatInt(minor) + " " + c.code;
    }
    var negative := minor < 0;
    var abs := minor;
    if negative {
      abs := Wrap(-minor);
    }
    var majorPart := TruncDiv(abs, MINOR_PER_MAJOR);
    var minorPart := TruncMod(abs, MINOR_PER_MAJOR);
    var grouped;
    if c == INR {
      grouped := Group(FormatInt(majorPart), 2);
    } else {
      grouped := Group(FormatInt(majorPart), 3);
    }
    var sign := "";
    if negative {
      sign := "-";
    }
    return Symbol(c) + (sign + (grouped + "." + Pad(minorPart, 2)));
  }

  // ----- Parsing ----------------------------------------------------------------------------------

  /** The fractional part: nothing, tenths, or the first two digits. */
  function ParseFraction(frac: string): Option<int> {
    if frac == "" then Some(0)
    else if |frac| == 1 then
      var n := ParseInt(frac);
      if n.None? then None else Some(n.value * 10)
    else ParseInt(frac[..2])
  }

  function Combine(negative: bool, major: Option<int>, minor: Option<int>): Option<int> {
    if major.None? || minor.None? then None
    else
      var v := Wrap(major.value * 100 + minor.value);
      Some(if negative then Wrap(-v) else v)
  }

  /** What follows sign and symbol, its commas removed. */
  function ParsePlain(negative: bool, s: string): Option<int> {
    var dot := IndexOf(s, '.');
    Combine(negative, ParseInt(s[..dot]), if dot < |s| then ParseFraction(s[dot + 1..]) else Some(0))
  }

  function StripSymbol(s: string): string {
    if s != "" && s[0] == RUPEE then s[1..] else s
  }

  /** After the symbol: a minus sign may follow it, too. */
  function AfterSymbol(negative: bool, s: string): Option<int> {
    if s != "" && s[0] == '-' then ParsePlain(true, Without(s[1..], ','))
    else ParsePlain(negative, Without(s, ','))
  }

  function ParsePaise(raw: string): Option<int> {
    var s := TrimSpace(raw);
    if s != "" && s[0] == '-' then AfterSymbol(true, TrimSpace(StripSymbol(TrimSpace(s[1..]))))
    else AfterSymbol(false, TrimSpace(StripSymbol(s)))
  }

  // ----- What grouping does -------------------------------------------------------------------

  lemma {:induction false} GroupsPlain(head: string, w: nat)
    requires w >= 1 && ',' !in head
    ensures Without(Groups(head, w), ',') == head
    ensures head != "" ==> Groups(head, w) != "" && Groups(head, w)[0] == head[0]
    decreases |head|
  {
    if |head| <= w {
      WithoutAbsent(head, ',');
    } else {
      var front, last := head[..|head| - w], head[|head| - w..];
      GroupsPlain(front, w);
      CommaBetween(Groups(front, w), front, last);
      assert front + last == head;
    }
  }

  lemma CommaBetween(shown: string, plain: string, last: string)
    requires Without(shown, ',') == plain && ',' !in last
    ensures Without(shown + "," + last, ',') == plain + last
  {
    assert shown + ("," + last) == shown + "," + last;
    WithoutConcat(shown, "," + last, ',');
    LeadingComma(last);
  }

  lemma LeadingComma(last: string)
    requires ',' !in last
    ensures Without("," + last, ',') == last
  {
    assert ("," + last)[1..] == last;
    WithoutAbsent(last, ',');
  }

  /** Grouping only inserts commas, and none in front. */
  lemma GroupedPlain(s: string, w: nat)
    requires w >= 1 && ',' !in s
    ensures Without(Grouped(s, w), ',') == s
    ensures s != "" ==> Grouped(s, w) != "" && Grouped(s, w)[0] == s[0]
  {
    if |s| <= 3 {
      WithoutAbsent(s, ',');
    } else {
      var front, last := s[..|s| - 3], s[|s| - 3..];
      GroupsPlain(front, w);
      CommaBetween(Groups(front, w), front, last);
      assert front + last == s;
    }
  }

  /** Where the commas are, counted from the right end: after every w characters. */
  lemma {:induction false} GroupsPlaces(head: string, w: nat, i: nat)
    requires (w == 2 || w == 3) && ',' !in head && i < |Groups(head, w)|
    ensures Groups(head, w)[i] == ',' <==> (|Groups(head, w)| - 1 - i) % (w + 1) == w
    decreases |head|
  {
    if |head| > w {
      var front := Groups(head[..|head| - w], w);
      var last := head[|head| - w..];
      assert Groups(head, w) == front + "," + last;
      assert |last| == w;
      if i < |front| {
        GroupsPlaces(head[..|head| - w], w, i);
      } else if i > |front| {
        assert Groups(head, w)[i] == last[i - |front| - 1];
        assert last[i - |front| - 1] in last;
      }
    }
  }

  /** Grouping puts commas exactly at the places three, then every w characters, from the right
      end. Since it changes nothing else, that determines the text. */
  lemma GroupedPlaces(s: string, w: nat, i: nat)
    requires (w == 2 || w == 3) && ',' !in s && i < |Grouped(s, w)|
    ensures var fromRight := |Grouped(s, w)| - 1 - i;
            Grouped(s, w)[i] == ',' <==> fromRight >= 3 && (fromRight - 3) % (w + 1) == 0
  {
    if |s| > 3 {
      var front := Groups(s[..|s| - 3], w);
      var last := s[|s| - 3..];
      assert Grouped(s, w) == front + "," + last;
      if i < |front| {
        GroupsPlaces(s[..|s| - 3], w, i);
        OneGroupOn(|front| - 1 - i, w);
      } else if i > |front| {
        assert last[i - |front| - 1] in last;
      }
    }
  }

  lemma OneGroupOn(k: nat, w: nat)
    requires w == 2 || w == 3
    ensures k % (w + 1) == w <==> (k + 4 - 3) % (w + 1) == 0
  {
    if w == 2 {
      assert k % 3 == 2 <==> (k + 1) % 3 == 0;
    } else {
      assert k % 4 == 3 <==> (k + 1) % 4 == 0;
    }
  }

  // ----- Reading back -----------------------------------------------------------------------------

  lemma ValueOne(d: nat)
    requires d < 10
    ensures AllDigits([DigitChar(d)]) && Value([DigitChar(d)]) == d
  {
    assert [DigitChar(d)][..0] == "";
    assert (DigitChar(d) - '0') as nat == d;
  }

  lemma OneDigit(d: nat)
    requires d < 10
    ensures ParseInt(['-', DigitChar(d)]) == Some(0 - d)
  {
    ValueOne(d);
    assert ['-', DigitChar(d)][1..] == [DigitChar(d)];
  }

  lemma TwoDigits(a: nat, b: nat)
    requires a < 10 && b < 10
    ensures ParseInt([DigitChar(a), DigitChar(b)]) == Some(a * 10 + b)
  {
    var s := [DigitChar(a), DigitChar(b)];
    ValueOne(a);
    assert s[..1] == [DigitChar(a)];
    assert (DigitChar(b) - '0') as nat == b;
    assert Value(s) == Value(s[..1]) * 10 + b;
  }

  lemma PadTwoText(m: int)
    requires -10 < m < 100
    ensures Pad(m, 2) == if m < 0 then ['-', DigitChar(-m)] else [DigitChar(m / 10), DigitChar(m % 10)]
  {
    if m < 0 {
      assert Digits(-m) == [DigitChar(-m)];
      assert ZeroPad(Digits(-m), 1) == Digits(-m);
    } else if m < 10 {
      var d := [DigitChar(m)];
      assert Digits(m) == d;
      assert ZeroPad(d, 2) == ZeroPad("0" + d, 2) == "0" + d;
      assert "0" + d == [DigitChar(0), DigitChar(m)];
    } else {
      assert Digits(m / 10) == [DigitChar(m / 10)];
      var t := [DigitChar(m / 10), DigitChar(m % 10)];
      assert Digits(m) == t;
      assert ZeroPad(t, 2) == t;
    }
  }

  lemma PadTwoParses(m: int)
    requires -10 < m < 100
    ensures |Pad(m, 2)| == 2 && ParseFraction(Pad(m, 2)) == Some(m)
    ensures IsDigit(Pad(m, 2)[1]) && ',' !in Pad(m, 2)
  {
    PadTwoText(m);
    var t := Pad(m, 2);
    assert t[..2] == t;
    if m < 0 {
      OneDigit(-m);
    } else {
      TwoDigits(m / 10, m % 10);
    }
  }

  lemma FormatIntChars(n: int)
    ensures FormatInt(n) != "" && forall c | c in FormatInt(n) :: c == '-' || IsDigit(c)
    ensures FormatInt(n)[0] == '-' <==> n < 0
  {
    DigitsDenote(if n < 0 then -n else n);
  }

  lemma PointSplits(negative: bool, x: string, y: string)
    requires '.' !in x
    ensures ParsePlain(negative, x + "." + y) == Combine(negative, ParseInt(x), ParseFraction(y))
  {
    var s := x + "." + y;
    var dot := |x|;
    assert s[dot] == '.' && s[..dot] == x && s[dot + 1..] == y;
    assert forall j | 0 <= j < dot :: s[j] in x;
    assert IndexOf(s, '.') == dot;
  }

  lemma PlainParses(negative: bool, major: int, minor: int)
    requires IsInt64(major) && -10 < minor < 100
    ensures ParsePlain(negative, FormatInt(major) + "." + Pad(minor, 2)) == Combine(negative, Some(major), Some(minor))
  {
    FormatIntChars(major);
    PointSplits(negative, FormatInt(major), Pad(minor, 2));
    ParseFormatted(major);
    PadTwoParses(minor);
  }

  /** Symbol, sign and commas are read over. */
  lemma ShownParses(negative: bool, body: string)
    requires body != "" && !IsSpace(body[0]) && !IsSpace(body[|body| - 1])
    requires !negative ==> body[0] != '-'
    ensures ParsePaise([RUPEE] + ((if negative then "-" else "") + body)) == ParsePlain(negative, Without(body, ','))
  {
    var inner := (if negative then "-" else "") + body;
    var raw := [RUPEE] + inner;
    assert inner[|inner| - 1] == body[|body| - 1] == raw[|raw| - 1];
    TrimNothing(raw);
    assert raw[1..] == inner;
    TrimNothing(inner);
    AfterSign(negative, body);
  }

  lemma AfterSign(negative: bool, body: string)
    requires body != "" && (!negative ==> body[0] != '-')
    ensures AfterSymbol(false, (if negative then "-" else "") + body) == ParsePlain(negative, Without(body, ','))
  {
    if negative {
      assert ("-" + body)[1..] == body;
    } else {
      assert "" + body == body;
    }
  }

  /** Grouped digits, a point and a fraction, without their commas. */
  lemma BodyPlain(shown: string, digits: string, cents: string)
    requires Without(shown, ',') == digits && ',' !in cents
    ensures Without(shown + "." + cents, ',') == digits + "." + cents
  {
    var tail := "." + cents;
    Associates(shown, cents);
    Associates(digits, cents);
    WithoutConcat(shown, tail, ',');
    WithoutAbsent(tail, ',');
  }

  lemma Associates(a: string, b: string)
    ensures a + ("." + b) == a + "." + b
  {
  }

  lemma NumberReads(negative: bool, major: int, minor: int, w: nat)
    requires IsInt64(major) && -10 < minor < 100 && w >= 1 && (!negative ==> major >= 0)
    ensures ParsePaise([RUPEE] + ((if negative then "-" else "") + (Grouped(FormatInt(major), w) + "." + Pad(minor, 2))))
         == Combine(negative, Some(major), Some(minor))
  {
    FormatIntChars(major);
    assert FormatInt(major)[0] in FormatInt(major);
    GroupedPlain(FormatInt(major), w);
    PadTwoParses(minor);
    ShownParses(negative, Grouped(FormatInt(major), w) + "." + Pad(minor, 2));
    BodyPlain(Grouped(FormatInt(major), w), FormatInt(major), Pad(minor, 2));
    PlainParses(negative, major, minor);
  }

  /** For the smallest amount the absolute value wraps back to itself, and major and minor part
      come out negative; the two signs cancel on the way back. */
  lemma MinorRange(n: int)
    requires IsInt64(n)
    ensures var abs := if n < 0 then Wrap(-n) else n;
            var major, minor := TruncDiv(abs, MINOR_PER_MAJOR), TruncMod(abs, MINOR_PER_MAJOR);
            && IsInt64(major) && -10 < minor < 100 && (n >= 0 ==> major >= 0)
            && Combine(n < 0, Some(major), Some(minor)) == Some(n)
  {
  }

  /** The text of an amount under either grouping, behind the rupee sign, reads back as the
      amount, for every 64-bit amount. */
  lemma AmountReadsBack(n: int, w: nat)
    requires IsInt64(n) && w >= 1
    ensures ParsePaise([RUPEE] + Amount(n, w)) == Some(n)
  {
    var abs := if n < 0 then Wrap(-n) else n;
    MinorRange(n);
    NumberReads(n < 0, TruncDiv(abs, MINOR_PER_MAJOR), TruncMod(abs, MINOR_PER_MAJOR), w);
  }

  /** Parsing inverts formatting in rupees, for every 64-bit amount. */
  lemma RoundTrip(n: int)
    requires IsInt64(n)
    ensures ParsePaise(Formatted(n, INR)) == Some(n)
  {
    AmountReadsBack(n, 2);
  }

  lemma LastOf(sign: string, shown: string, cents: string)
    requires cents != ""
    ensures var s := sign + (shown + "." + cents); s != "" && s[|s| - 1] == cents[|cents| - 1]
  {
  }

  /** The text of an amount ends with a digit. */
  lemma AmountEnds(n: int, w: nat)
    requires IsInt64(n) && w >= 1
    ensures Amount(n, w) != "" && IsDigit(Amount(n, w)[|Amount(n, w)| - 1])
  {
    var abs := if n < 0 then Wrap(-n) else n;
    MinorRange(n);
    var cents := Pad(TruncMod(abs, MINOR_PER_MAJOR), 2);
    PadTwoParses(TruncMod(abs, MINOR_PER_MAJOR));
    LastOf(if n < 0 then "-" else "", Grouped(FormatInt(TruncDiv(abs, MINOR_PER_MAJOR)), w), cents);
  }

  /** Amounts shown in another known currency are refused: the symbol is not a digit. */
  lemma ForeignRefused(n: int, c: Currency)
    requires IsInt64(n) && (c == USD || c == EUR)
    ensures ParsePaise(Formatted(n, c)) == None
  {
    AmountEnds(n, 3);
    ForeignBehind(Symbol(c)[0], Amount(n, 3));
  }

  lemma ForeignBehind(symbol: char, amount: string)
    requires symbol == '$' || symbol == EURO
    requires amount != "" && IsDigit(amount[|amount| - 1])
    ensures ParsePaise([symbol] + amount) == None
  {
    var raw := [symbol] + amount;
    assert raw[0] == symbol && raw[|raw| - 1] == amount[|amount| - 1];
    ForeignText(raw);
  }

  lemma ForeignText(raw: string)
    requires raw != "" && (raw[0] == '$' || raw[0] == EURO) && !IsSpace(raw[|raw| - 1])
    ensures ParsePaise(raw) == None
  {
    TrimNothing(raw);
    var plain := Without(raw, ',');
    assert plain[0] == raw[0];
    var dot := IndexOf(plain, '.');
    assert plain[..dot][0] == raw[0];
    assert ParseInt(plain[..dot]).None?;
  }
}
