/**
  The `/cofl bz l` line parsers of `src/main.rs` and the accumulators they feed.
  Parsing a decimal number (`str::parse::<f64>`) is a parameter; every statement holds for any such parser.
 */
module BzList {
  import opened Wrappers
  import opened Text

  type FloatParser = string -> Option<real>

  const I64_MAX: int := 0x7FFF_FFFF_FFFF_FFFF
  const HEADER: string := "Last Completed Bazaar Flips"

  function WithoutCommas(s: string): string {
    if s == "" then "" else (if s[0] == ',' then "" else [s[0]]) + WithoutCommas(s[1..])
  }

  /** `as i64`: toward zero, saturating. */
  function ToI64(x: real): int {
    var n := if x >= 0.0 then x.Floor else -((-x).Floor);
    if n > I64_MAX then I64_MAX else if n < -I64_MAX - 1 then -I64_MAX - 1 else n
  }

  function Multiplier(c: char): Option<real> {
    if c == 'B' || c == 'b' then Some(1_000_000_000.0)
    else if c == 'M' || c == 'm' then Some(1_000_000.0)
    else if c == 'K' || c == 'k' then Some(1_000.0)
    else None
  }

  /** `parse_short_number`. */
  function ShortNumber(text: string, float: FloatParser): Option<int> {
    var s := WithoutCommas(text);
    var suffix := if s == "" then None else Multiplier(s[|s| - 1]);
    match float(if suffix.Some? then s[..|s| - 1] else s)
    case None => None
    case Some(x) => Some(ToI64(x * (if suffix.Some? then suffix.value else 1.0)))
  }

  // ----- Numbers in figures -----

  /** What is left of a fraction: the whole number next to it toward zero, within the signed 64-bit range. */
  lemma ToI64Exactly(x: real)
    ensures var n := ToI64(x);
            && -9_223_372_036_854_775_808 <= n <= 9_223_372_036_854_775_807
            && (x >= 9_223_372_036_854_775_807.0 ==> n == 9_223_372_036_854_775_807)
            && (0.0 <= x < 9_223_372_036_854_775_807.0 ==> n as real <= x < n as real + 1.0)
            && (-9_223_372_036_854_775_808.0 < x <= 0.0 ==> n as real - 1.0 < x <= n as real)
            && (x <= -9_223_372_036_854_775_808.0 ==> n == -9_223_372_036_854_775_808)
  {
  }

  predicate Lacks(s: string, c: char) { forall i :: 0 <= i < |s| ==> s[i] != c }

  lemma {:induction false} CommasGo(a: string, b: string)
    ensures WithoutCommas(a + b) == WithoutCommas(a) + WithoutCommas(b)
    ensures Lacks(a, ',') ==> WithoutCommas(a) == a
    decreases |a|
  {
    if a == "" {
      assert a + b == b;
    } else {
      assert (a + b)[1..] == a[1..] + b;
      CommasGo(a[1..], b);
    }
  }

  lemma CommaGoes(a: string, b: string)
    ensures WithoutCommas(a + ("," + b)) == WithoutCommas(a + b)
  {
    CommasGo(a, "," + b);
    CommasGo(a, b);
    assert ("," + b)[1..] == b;
  }

  /** Commas in a number are passed over, wherever they stand. */
  lemma {:induction false} CommasIgnored(a: string, b: string, float: FloatParser)
    ensures ShortNumber(a + ("," + b), float) == ShortNumber(a + b, float)
  {
    CommaGoes(a, b);
  }

  function Scaled(x: Option<real>, scale: real): Option<int> {
    if x.None? then None else Some(ToI64(x.value * scale))
  }

  /** A number with a suffix is the printed number times a thousand, a million or a billion. */
  lemma {:induction false} SuffixedNumber(number: string, suffix: char, float: FloatParser)
    requires Lacks(number, ',')
    ensures var r, x := ShortNumber(number + [suffix], float), float(number);
            && (suffix == 'K' || suffix == 'k' ==> r == Scaled(x, 1000.0))
            && (suffix == 'M' || suffix == 'm' ==> r == Scaled(x, 1000000.0))
            && (suffix == 'B' || suffix == 'b' ==> r == Scaled(x, 1000000000.0))
  {
    var s := number + [suffix];
    CommasGo(number, [suffix]);
    assert s[..|s| - 1] == number;
    assert suffix != ',' ==> WithoutCommas(s) == s;
  }

  /** A number that ends in none of the suffixes is read as it stands. */
  lemma {:induction false} PlainNumber(number: string, float: FloatParser)
    requires Lacks(number, ',')
    requires number == "" || forall i :: 0 <= i < 6 ==> number[|number| - 1] != "KkMmBb"[i]
    ensures ShortNumber(number, float) == Scaled(float(number), 1.0)
  {
    CommasGo(number, "");
    if number != "" {
      var last := number[|number| - 1];
      assert last != "KkMmBb"[0] && last != "KkMmBb"[1] && last != "KkMmBb"[2];
      assert last != "KkMmBb"[3] && last != "KkMmBb"[4] && last != "KkMmBb"[5];
    }
  }

  // ----- The line parsers -----

  /** The text before `mark`, trimmed, and the text after it. */
  function Cut(s: string, mark: string): (r: Option<(string, string)>)
    ensures r.Some? ==> |r.value.1| + |mark| <= |s|
  {
    match Find(s, mark, 0)
    case None => None
    case Some(at) => Some((Trim(s[..at]), s[at + |mark|..]))
  }

  /** The profit between the first `=> ` and the next parenthesis, and what follows that. */
  function ProfitAndRest(s: string, float: FloatParser): Option<(int, string)> {
    var arrow := Cut(s, "=> ");
    if arrow.None? then None else
    var paren := Cut(arrow.value.1, "(");
    if paren.None? then None else
    var profit := ShortNumber(paren.value.0, float);
    if profit.None? then None else Some((profit.value, paren.value.1))
  }

  /** `parse_bz_list_flip_profit`. */
  function LineProfit(line: string, float: FloatParser): Option<int> {
    var p := ProfitAndRest(line, float);
    if p.None? then None else Some(p.value.0)
  }

  datatype Detail = Detail(item: string, profit: int, count: nat)

  /** What follows the amount and its x. */
  function AfterAmount(line: string): Option<string> {
    var amount := Cut(line, "x");
    if amount.None? || amount.value.0 == "" || !AllDigits(amount.value.0) then None else Some(amount.value.1)
  }

  function ItemName(rest: string): Option<string> {
    var item := Cut(rest, ":");
    if item.None? || item.value.0 == "" then None else Some(item.value.0)
  }

  function FlipCount(rest: string): Option<nat> {
    var close := Cut(rest, ")");
    if close.None? then None else ParseBounded(close.value.0, 0x1_0000_0000)
  }

  /** `parse_bz_list_flip_detail`: amount, item, profit and flip count. */
  function LineDetail(line: string, float: FloatParser): Option<Detail> {
    var rest := AfterAmount(line);
    if rest.None? then None else
    var item := ItemName(rest.value);
    if item.None? then None else
    var profit := ProfitAndRest(rest.value, float);
    if profit.None? then None else
    var count := FlipCount(profit.value.1);
    if count.None? then None else Some(Detail(item.value, profit.value.0, count.value))
  }

  lemma MatchStarts(s: string, mark: string, i: nat)
    requires mark != "" && MatchesAt(s, mark, i)
    ensures s[i] == mark[0]
  {
    assert s[i..i + |mark|][0] == s[i];
  }

  /** A mark that starts with neither an x, a digit nor a space is first found behind the amount and its x. */
  lemma CutPastAmount(line: string, at: nat, mark: string)
    requires at < |line| && line[at] == 'x' && AllDigits(Trim(line[..at]))
    requires mark != "" && mark[0] != 'x' && !IsDigit(mark[0]) && !IsSpace(mark[0])
    requires Cut(line[at + 1..], mark).Some?
    ensures Cut(line, mark).Some? && Cut(line, mark).value.1 == Cut(line[at + 1..], mark).value.1
  {
    forall i | 0 <= i < at + 1
      ensures !MatchesAt(line, mark, i)
    {
      if MatchesAt(line, mark, i) {
        MatchStarts(line, mark, i);
        if i < at {
          TrimDropsSpaces(line[..at], i);
        }
      }
    }
    FindInTail(line, mark, at + 1);
  }

  lemma AmountSplit(line: string) returns (at: nat)
    requires AfterAmount(line).Some?
    ensures at < |line| && line[at] == 'x' && AllDigits(Trim(line[..at]))
    ensures AfterAmount(line).value == line[at + 1..]
  {
    at := Find(line, "x", 0).value;
    FindIsFirst(line, "x", 0);
    assert line[at] == line[at..at + 1][0];
  }

  /** The profit is the same with or without the amount in front. */
  lemma ProfitPastAmount(line: string, at: nat, float: FloatParser)
    requires at < |line| && line[at] == 'x' && AllDigits(Trim(line[..at]))
    requires ProfitAndRest(line[at + 1..], float).Some?
    ensures ProfitAndRest(line, float) == ProfitAndRest(line[at + 1..], float)
  {
    var mark := "=> ";
    assert mark[0] == '=';
    CutPastAmount(line, at, mark);
  }

  lemma DetailParts(line: string, float: FloatParser)
    requires LineDetail(line, float).Some?
    ensures AfterAmount(line).Some?
    ensures var profit := ProfitAndRest(AfterAmount(line).value, float);
            profit.Some? && profit.value.0 == LineDetail(line, float).value.profit
  {
  }

  /** Whenever the detailed parser accepts a line, the profit-only parser reads the same profit from it. */
  lemma {:induction false} DetailAgreesWithProfit(line: string, float: FloatParser)
    requires LineDetail(line, float).Some?
    ensures LineProfit(line, float) == Some(LineDetail(line, float).value.profit)
  {
    DetailParts(line, float);
    var at := AmountSplit(line);
    ProfitPastAmount(line, at, float);
  }

  // ----- Printed lines -----

  lemma CutAtMark(a: string, mark: string, b: string)
    requires mark != "" && forall i :: 0 <= i < |a| ==> a[i] != mark[0]
    ensures Cut(a + (mark + b), mark) == Some((Trim(a), b))
  {
    var s := a + (mark + b);
    forall i | 0 <= i < |a|
      ensures !MatchesAt(s, mark, i)
    {
      if MatchesAt(s, mark, i) {
        MatchStarts(s, mark, i);
      }
    }
    assert s[|a|..|a| + |mark|] == mark;
    FindIs(s, mark, 0, |a|);
    assert s[..|a|] == a && s[|a| + |mark|..] == b;
  }

  /** A flip line in pieces, such as `2xJungle Key: 1.05M -> 287K => -768K(1)`; `trade` stands before the arrow. */
  datatype Pieces = Pieces(amount: string, item: string, trade: string, profit: string, count: string, tail: string)

  function AfterArrow(p: Pieces): string { p.profit + ("(" + (p.count + (")" + p.tail))) }

  function BehindAmount(p: Pieces): string { p.item + (":" + (p.trade + ("=> " + AfterArrow(p)))) }

  function FlipLine(p: Pieces): string { p.amount + ("x" + BehindAmount(p)) }

  /** No piece holds the mark that ends it, nor one before the arrow an equals sign. */
  predicate Separable(p: Pieces) {
    && Lacks(p.amount, 'x') && Lacks(p.item, ':') && Lacks(p.item, '=') && Lacks(p.trade, '=')
    && Lacks(p.profit, '(') && Lacks(p.count, ')')
  }

  lemma ProfitExactly(before: string, profit: string, rest: string, float: FloatParser)
    requires Lacks(before, '=') && Lacks(profit, '(')
    ensures ProfitAndRest(before + ("=> " + (profit + ("(" + rest))), float)
            == match ShortNumber(Trim(profit), float)
               case None => None
               case Some(p) => Some((p, rest))
  {
    CutAtMark(before, "=> ", profit + ("(" + rest));
    CutAtMark(profit, "(", rest);
  }

  lemma CutNowhere(s: string, mark: string)
    requires mark != "" && Lacks(s, mark[0])
    ensures Cut(s, mark) == None
  {
    FindIsFirst(s, mark, 0);
    if Cut(s, mark).Some? {
      MatchStarts(s, mark, Find(s, mark, 0).value);
    }
  }

  /** The profit-only parser takes what stands between the first arrow and the next parenthesis, and nothing else. */
  lemma {:induction false} LooseLineReadsBack(before: string, profit: string, rest: string, float: FloatParser)
    requires Lacks(before, '=') && Lacks(profit, '(')
    ensures LineProfit(before + ("=> " + (profit + ("(" + rest))), float) == ShortNumber(Trim(profit), float)
    ensures LineProfit(before, float) == None
    ensures LineProfit(before + ("=> " + profit), float) == None
  {
    ProfitExactly(before, profit, rest, float);
    CutNowhere(before, "=> ");
    CutAtMark(before, "=> ", profit);
    CutNowhere(profit, "(");
  }

  lemma AmountExactly(amount: string, rest: string)
    requires Lacks(amount, 'x')
    ensures AfterAmount(amount + ("x" + rest))
         == if Trim(amount) != "" && AllDigits(Trim(amount)) then Some(rest) else None
    ensures AfterAmount(amount) == None
  {
    CutAtMark(amount, "x", rest);
    CutNowhere(amount, "x");
  }

  lemma ItemExactly(item: string, rest: string)
    requires Lacks(item, ':')
    ensures ItemName(item + (":" + rest)) == if Trim(item) != "" then Some(Trim(item)) else None
    ensures ItemName(item) == None
  {
    CutAtMark(item, ":", rest);
    CutNowhere(item, ":");
  }

  lemma CountExactly(count: string, rest: string)
    requires Lacks(count, ')')
    ensures FlipCount(count + (")" + rest)) == ParseBounded(Trim(count), 0x1_0000_0000)
    ensures FlipCount(count) == None
  {
    CutAtMark(count, ")", rest);
    CutNowhere(count, ")");
  }

  lemma BehindIsBefore(p: Pieces)
    ensures BehindAmount(p) == (p.item + (":" + p.trade)) + ("=> " + AfterArrow(p))
  {
  }

  /**
    The detailed parser accepts a line exactly when its amount is digits, its item is not blank, its profit is a
    number and its count is one of 32 bits; it reads item, profit and count as they stand, white space around dropped.
   */
  lemma {:induction false} DetailExactly(p: Pieces, float: FloatParser)
    requires Separable(p)
    ensures var profit, count := ShortNumber(Trim(p.profit), float), ParseBounded(Trim(p.count), 0x1_0000_0000);
            LineDetail(FlipLine(p), float)
            == if Trim(p.amount) != "" && AllDigits(Trim(p.amount)) && Trim(p.item) != "" && profit.Some? && count.Some?
               then Some(Detail(Trim(p.item), profit.value, count.value)) else None
  {
    AmountExactly(p.amount, BehindAmount(p));
    ItemExactly(p.item, p.trade + ("=> " + AfterArrow(p)));
    BehindIsBefore(p);
    ProfitExactly(p.item + (":" + p.trade), p.profit, p.count + (")" + p.tail), float);
    CountExactly(p.count, p.tail);
  }

  /** A well-formed line reads back as the item, profit and count printed in it, unless the count exceeds 32 bits. */
  lemma {:induction false} DetailReadsBack(p: Pieces, amount: nat, count: nat, float: FloatParser)
    requires p.amount == Decimal(amount) && p.count == Decimal(count) && p.item != ""
    requires Trimmed(p.item) && Lacks(p.item, ':') && Lacks(p.item, '=') && Lacks(p.trade, '=')
    requires Lacks(p.profit, '(') && Trimmed(p.profit) && ShortNumber(p.profit, float).Some?
    ensures LineDetail(FlipLine(p), float)
            == if count < 0x1_0000_0000 then Some(Detail(p.item, ShortNumber(p.profit, float).value, count)) else None
  {
    DigitsStay(amount);
    CountStays(count);
    TrimOfTrimmed(p.item);
    TrimOfTrimmed(p.profit);
    DetailExactly(p, float);
  }

  lemma DigitsStay(n: nat)
    ensures Trim(Decimal(n)) == Decimal(n) && Lacks(Decimal(n), 'x')
  {
    TrimOfTrimmed(Decimal(n));
  }

  lemma CountStays(n: nat)
    ensures Lacks(Decimal(n), ')')
    ensures ParseBounded(Trim(Decimal(n)), 0x1_0000_0000) == if n < 0x1_0000_0000 then Some(n) else None
  {
    DigitsStay(n);
    DecimalReadsBack(n);
  }

  // ----- The accumulators -----

  /** The running total with its line count, and per item the summed profit and flip count. */
  datatype Accum = Accum(total: int, lines: nat, items: map<string, (int, nat)>)

  const EMPTY := Accum(0, 0, map[])

  function AddDetail(items: map<string, (int, nat)>, d: Detail): map<string, (int, nat)> {
    var was := if d.item in items then items[d.item] else (0, 0);
    items[d.item := (was.0 + d.profit, was.1 + d.count)]
  }

  /** What the handler makes of one colour-stripped chat message. */
  datatype Parsed = Header | Other | Line(profit: int, detail: Option<Detail>)

  function Parse(message: string, float: FloatParser): Parsed {
    if Contains(message, HEADER) then Header
    else match LineProfit(message, float)
      case None => Other
      case Some(profit) => Line(profit, LineDetail(message, float))
  }

  function OnParsed(acc: Accum, p: Parsed): Accum {
    match p
    case Header => EMPTY
    case Other => acc
    case Line(profit, detail) =>
      Accum(acc.total + profit, acc.lines + 1, if detail.Some? then AddDetail(acc.items, detail.value) else acc.items)
  }

  function Accumulate(messages: seq<Parsed>): Accum {
    if messages == [] then EMPTY else OnParsed(Accumulate(messages[..|messages| - 1]), messages[|messages| - 1])
  }

  function ParseAll(messages: seq<string>, float: FloatParser): (r: seq<Parsed>)
    ensures |r| == |messages| && forall i :: 0 <= i < |r| ==> r[i] == Parse(messages[i], float)
  {
    if messages == [] then []
    else ParseAll(messages[..|messages| - 1], float) + [Parse(messages[|messages| - 1], float)]
  }

  /** A message starts the list anew exactly when it shows the header somewhere. */
  lemma HeaderExactly(message: string, float: FloatParser)
    ensures Parse(message, float).Header? <==> exists at: nat :: OccursAt("Last Completed Bazaar Flips", message, at)
  {
    OccursIsContained("Last Completed Bazaar Flips", message);
  }

  /** The accumulators as the chat handler holds them. */
  class BzListAccumulators {
    var total: int
    var lines: nat
    var items: map<string, (int, nat)>

    constructor ()
      ensures Accum(total, lines, items) == EMPTY
    {
      total, lines, items := 0, 0, map[];
    }

    method OnMessage(message: string, float: FloatParser)
      modifies this
      ensures Accum(total, lines, items) == OnParsed(old(Accum(total, lines, items)), Parse(message, float))
    {
      Apply(Parse(message, float));
    }

    method Apply(parsed: Parsed)
      modifies this
      ensures Accum(total, lines, items) == OnParsed(old(Accum(total, lines, items)), parsed)
    {
      match parsed
      case Header => total, lines, items := 0, 0, map[];
      case Other =>
      case Line(profit, detail) =>
        if detail.Some? {
          var d := detail.value;
          var entry := if d.item in items then items[d.item] else (0, 0);
          items := items[d.item := (entry.0 + d.profit, entry.1 + d.count)];
        }
        total := total + profit;
        lines := lines + 1;
    }
  }

  /** The messages after the last header. */
  function SinceHeader(messages: seq<Parsed>): seq<Parsed> {
    if messages == [] || messages[|messages| - 1].Header? then []
    else SinceHeader(messages[..|messages| - 1]) + [messages[|messages| - 1]]
  }

  function LineCount(messages: seq<Parsed>): nat {
    if messages == [] then 0
    else LineCount(messages[..|messages| - 1]) + if messages[|messages| - 1].Line? then 1 else 0
  }

  /** Profit of the lines only the looser parser accepts. */
  function LooseProfit(lines: seq<Parsed>): int {
    if lines == [] then 0
    else
      var last := lines[|lines| - 1];
      LooseProfit(lines[..|lines| - 1]) + if last.Line? && last.detail.None? then last.profit else 0
  }

  predicate IsAbout(p: Parsed, item: string) { p.Line? && p.detail.Some? && p.detail.value.item == item }

  /** The summed profit and flip count of the detailed lines about one item; nothing without such a line. */
  function SumAbout(lines: seq<Parsed>, item: string): Option<(int, nat)> {
    if lines == [] then None
    else
      var last, front := lines[|lines| - 1], SumAbout(lines[..|lines| - 1], item);
      if !IsAbout(last, item) then front
      else
        var was := if front.Some? then front.value else (0, 0);
        Some((was.0 + last.detail.value.profit, was.1 + last.detail.value.count))
  }

  ghost function SumProfits(items: map<string, (int, nat)>): int {
    if items == map[] then 0
    else
      var k :| k in items;
      items[k].0 + SumProfits(items - {k})
  }

  lemma {:induction false} SumWithout(items: map<string, (int, nat)>, k: string)
    requires k in items
    ensures SumProfits(items) == items[k].0 + SumProfits(items - {k})
    decreases |items|
  {
    var j :| j in items && SumProfits(items) == items[j].0 + SumProfits(items - {j});
    if j != k {
      SumWithout(items - {j}, k);
      SumWithout(items - {k}, j);
      assert items - {j} - {k} == items - {k} - {j};
    }
  }

  lemma SumAfterAdd(items: map<string, (int, nat)>, d: Detail)
    ensures SumProfits(AddDetail(items, d)) == SumProfits(items) + d.profit
  {
    var items' := AddDetail(items, d);
    SumWithout(items', d.item);
    assert items' - {d.item} == items - {d.item};
    if d.item in items {
      SumWithout(items, d.item);
    } else {
      assert items - {d.item} == items;
    }
  }

  /** A detailed line carries the profit the looser parser saw. */
  predicate Agrees(p: Parsed) { p.Line? && p.detail.Some? ==> p.detail.value.profit == p.profit }

  lemma ParsedAgrees(messages: seq<string>, float: FloatParser)
    ensures forall i :: 0 <= i < |messages| ==> Agrees(ParseAll(messages, float)[i])
  {
    forall i | 0 <= i < |messages|
      ensures Agrees(Parse(messages[i], float))
    {
      if LineDetail(messages[i], float).Some? {
        DetailAgreesWithProfit(messages[i], float);
      }
    }
  }

  /** The total is the items' profit plus the looser lines', and an item holds what its own lines say. */
  ghost predicate InStep(acc: Accum, since: seq<Parsed>, item: string) {
    && acc.total == SumProfits(acc.items) + LooseProfit(since)
    && acc.lines == LineCount(since)
    && (if item in acc.items then Some(acc.items[item]) else None) == SumAbout(since, item)
  }

  lemma SinceSnoc(since: seq<Parsed>, last: Parsed, item: string)
    ensures LooseProfit(since + [last])
         == LooseProfit(since) + if last.Line? && last.detail.None? then last.profit else 0
    ensures LineCount(since + [last]) == LineCount(since) + if last.Line? then 1 else 0
    ensures IsAbout(last, item) ==>
              var was := if SumAbout(since, item).Some? then SumAbout(since, item).value else (0, 0);
              SumAbout(since + [last], item)
              == Some((was.0 + last.detail.value.profit, was.1 + last.detail.value.count))
    ensures !IsAbout(last, item) ==> SumAbout(since + [last], item) == SumAbout(since, item)
  {
    assert (since + [last])[..|since|] == since;
  }

  lemma LineKeepsInStep(acc: Accum, since: seq<Parsed>, last: Parsed, item: string)
    requires InStep(acc, since, item) && Agrees(last) && !last.Header?
    ensures InStep(OnParsed(acc, last), since + [last], item)
  {
    SinceSnoc(since, last, item);
    if last.Line? && last.detail.Some? {
      SumAfterAdd(acc.items, last.detail.value);
    }
  }

  lemma {:induction false} ParsedTotalsAgree(messages: seq<Parsed>, item: string)
    requires forall i :: 0 <= i < |messages| ==> Agrees(messages[i])
    ensures InStep(Accumulate(messages), SinceHeader(messages), item)
  {
    if messages != [] {
      var front, last := messages[..|messages| - 1], messages[|messages| - 1];
      ParsedTotalsAgree(front, item);
      if !last.Header? {
        LineKeepsInStep(Accumulate(front), SinceHeader(front), last, item);
      }
    }
  }

  /**
    After any message sequence, the total is the sum over the per-item map plus the profit of the lines since the
    header only the looser parser accepts, the map holds for each item the sums over its detailed lines, and the
    lines counted are those either parser accepts.
   */
  lemma {:induction false} TotalsAgree(messages: seq<string>, float: FloatParser, item: string)
    ensures var acc, since := Accumulate(ParseAll(messages, float)), SinceHeader(ParseAll(messages, float));
            && acc.total == SumProfits(acc.items) + LooseProfit(since)
            && acc.lines == LineCount(since)
            && (if item in acc.items then Some(acc.items[item]) else None) == SumAbout(since, item)
  {
    ParsedAgrees(messages, float);
    ParsedTotalsAgree(ParseAll(messages, float), item);
  }
}
