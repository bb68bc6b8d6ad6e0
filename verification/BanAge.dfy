/**
  How old a ban is: the duration parser, the ladder and the recency gate of `src/webhook.rs`.
  Numbers are `u64`: the parser's sum saturates, the ladder's multiplication wraps as in a release build.
 */
module BanAge {
  import opened Wrappers
  import opened Text
  import BanText

  const U64_RANGE := 0x1_0000_0000_0000_0000
  const DAY: nat := 86_400

  type u64 = n: int | 0 <= n < U64_RANGE

  const LADDER: seq<nat> := [30 * DAY, 90 * DAY, 180 * DAY, 360 * DAY]

  function Saturate(n: nat): u64 { if n < U64_RANGE then n else U64_RANGE - 1 }

  // ----- Durations -----

  /** `str::parse::<u64>` on a run of digits. */
  function ParseU64(digits: string): Option<u64>
    requires AllDigits(digits)
  {
    if digits != "" && NumberOf(digits) < U64_RANGE then Some(NumberOf(digits)) else None
  }

  function UnitSeconds(c: char): Option<nat> {
    var l := LowerChar(c);
    if l == 'w' then Some(7 * DAY) else if l == 'd' then Some(DAY) else if l == 'h' then Some(3_600)
    else if l == 'm' then Some(60) else if l == 's' then Some(1) else None
  }

  /** The parser's variables between two characters. */
  datatype Scan = Scan(total: u64, matched: bool, digits: string)

  /** One turn of the parser's loop; `None` is the early return on an unreadable number. */
  function Step(st: Scan, c: char): (r: Option<Scan>)
    requires AllDigits(st.digits)
    ensures r.Some? ==> AllDigits(r.value.digits)
  {
    if IsDigit(c) then Some(st.(digits := st.digits + [c]))
    else if st.digits == "" then Some(st)
    else if UnitSeconds(c).None? then Some(st.(digits := ""))
    else match ParseU64(st.digits)
      case None => None
      case Some(n) => Some(Scan(Saturate(st.total + Saturate(n * UnitSeconds(c).value)), true, ""))
  }

  function Run(st: Scan, s: string): (r: Option<Scan>)
    requires AllDigits(st.digits)
    ensures r.Some? ==> AllDigits(r.value.digits)
    decreases |s|
  {
    if s == "" then Some(st)
    else match Step(st, s[0])
      case None => None
      case Some(st') => Run(st', s[1..])
  }

  const START := Scan(0, false, "")

  function ParseDuration(s: string): Option<u64> {
    match Run(START, s)
    case None => None
    case Some(st) => if st.matched then Some(st.total) else None
  }

  method ParseBanDuration(duration: string) returns (r: Option<u64>)
    ensures r == ParseDuration(duration)
  {
    var total: u64, matched, digits := 0, false, "";
    var i := 0;
    while i < |duration|
      invariant i <= |duration| && AllDigits(digits)
      invariant Run(Scan(total, matched, digits), duration[i..]) == Run(START, duration)
    {
      var c := duration[i];
      assert duration[i..][1..] == duration[i + 1..];
      i := i + 1;
      if IsDigit(c) {
        digits := digits + [c];
        continue;
      }
      if digits == "" {
        continue;
      }
      var unit := UnitSeconds(c);
      if unit.None? {
        digits := "";
        continue;
      }
      var n := ParseU64(digits);
      if n.None? {
        return None;
      }
      total := Saturate(total + Saturate(n.value * unit.value));
      matched := true;
      digits := "";
    }
    return if matched then Some(total) else None;
  }

  // ----- Durations as texts -----

  /** A unit's seconds, in either letter case. */
  function SecondsPer(c: char): Option<nat> {
    match c
    case 'w' | 'W' => Some(604_800)
    case 'd' | 'D' => Some(86_400)
    case 'h' | 'H' => Some(3_600)
    case 'm' | 'M' => Some(60)
    case 's' | 'S' => Some(1)
    case _ => None
  }

  lemma UnitsInNumbers(c: char)
    ensures UnitSeconds(c) == SecondsPer(c)
  {
  }

  /** One component such as `29d`, and what stands before it. */
  datatype Token = Token(gap: string, digits: string, unit: char)

  predicate NoDigits(s: string) { forall i :: 0 <= i < |s| ==> !IsDigit(s[i]) }

  predicate IsToken(t: Token) { NoDigits(t.gap) && t.digits != "" && AllDigits(t.digits) && !IsDigit(t.unit) }

  predicate AreTokens(tokens: seq<Token>) { forall i :: 0 <= i < |tokens| ==> IsToken(tokens[i]) }

  /** The tokens one behind the other, then the rest of the line. */
  function Print(tokens: seq<Token>, tail: string): string {
    if tokens == [] then tail
    else tokens[0].gap + (tokens[0].digits + ([tokens[0].unit] + Print(tokens[1..], tail)))
  }

  predicate Counts(t: Token) { SecondsPer(t.unit).Some? }

  predicate AnyCounts(tokens: seq<Token>) { exists i :: 0 <= i < |tokens| && Counts(tokens[i]) }

  /** Every number with a unit fits in 64 bits. */
  predicate Readable(tokens: seq<Token>)
    requires AreTokens(tokens)
  {
    forall i :: 0 <= i < |tokens| && Counts(tokens[i]) ==> NumberOf(tokens[i].digits) < 0x1_0000_0000_0000_0000
  }

  function TokenSeconds(t: Token): nat
    requires IsToken(t)
  {
    if Counts(t) then NumberOf(t.digits) * SecondsPer(t.unit).value else 0
  }

  /** The seconds the tokens stand for; one without a unit stands for nothing. */
  function TotalOf(tokens: seq<Token>): nat
    requires AreTokens(tokens)
  {
    if tokens == [] then 0 else TokenSeconds(tokens[0]) + TotalOf(tokens[1..])
  }

  /** Every text is a list of tokens and a rest: other characters, then digits no unit follows. */
  lemma {:induction false} EveryTextSplits(s: string) returns (tokens: seq<Token>, after: string, digits: string)
    ensures AreTokens(tokens) && NoDigits(after) && AllDigits(digits) && s == Print(tokens, after + digits)
    decreases |s|
  {
    if s == "" {
      tokens, after, digits := [], "", "";
    } else {
      tokens, after, digits := EveryTextSplits(s[1..]);
      assert s == [s[0]] + s[1..];
      tokens, after, digits := PutBefore(s[0], tokens, after, digits);
    }
  }

  lemma {:induction false} PutBefore(c: char, tokens: seq<Token>, after: string, digits: string)
    returns (tokens': seq<Token>, after': string, digits': string)
    requires AreTokens(tokens) && NoDigits(after) && AllDigits(digits)
    ensures AreTokens(tokens') && NoDigits(after') && AllDigits(digits')
    ensures Print(tokens', after' + digits') == [c] + Print(tokens, after + digits)
  {
    tokens', after', digits' := tokens, after, digits;
    if tokens == [] {
      if !IsDigit(c) {
        after' := [c] + after;
      } else if after == "" {
        digits' := [c] + digits;
      } else {
        tokens', after' := [Token("", [c], after[0])], after[1..];
      }
      assert Print(tokens', after' + digits') == [c] + (after + digits);
    } else if !IsDigit(c) {
      tokens' := PutInGap(c, tokens, after + digits);
    } else if tokens[0].gap == "" {
      tokens' := PutInDigits(c, tokens, after + digits);
    } else {
      tokens' := PutDigitAway(c, tokens, after + digits);
    }
  }

  lemma PrintFirst(t: Token, rest: seq<Token>, tail: string)
    ensures Print([t] + rest, tail) == t.gap + (t.digits + ([t.unit] + Print(rest, tail)))
  {
    assert ([t] + rest)[1..] == rest;
  }

  lemma PutInGap(c: char, tokens: seq<Token>, tail: string) returns (tokens': seq<Token>)
    requires AreTokens(tokens) && tokens != [] && !IsDigit(c)
    ensures AreTokens(tokens') && Print(tokens', tail) == [c] + Print(tokens, tail)
  {
    var first := tokens[0];
    tokens' := [first.(gap := [c] + first.gap)] + tokens[1..];
    PrintFirst(tokens'[0], tokens[1..], tail);
    PushOne(c, first.gap, first.digits + ([first.unit] + Print(tokens[1..], tail)));
  }

  lemma PushOne(c: char, a: string, b: string)
    ensures [c] + a + b == [c] + (a + b)
  {
  }

  lemma PutInDigits(c: char, tokens: seq<Token>, tail: string) returns (tokens': seq<Token>)
    requires AreTokens(tokens) && tokens != [] && IsDigit(c) && tokens[0].gap == ""
    ensures AreTokens(tokens') && Print(tokens', tail) == [c] + Print(tokens, tail)
  {
    var first := tokens[0];
    tokens' := [first.(digits := [c] + first.digits)] + tokens[1..];
    PrintFirst(tokens'[0], tokens[1..], tail);
    PushOne(c, first.digits, [first.unit] + Print(tokens[1..], tail));
    NoGap(first.digits + ([first.unit] + Print(tokens[1..], tail)));
    NoGap([c] + first.digits + ([first.unit] + Print(tokens[1..], tail)));
  }

  lemma NoGap(s: string)
    ensures "" + s == s
  {
  }

  lemma PutDigitAway(c: char, tokens: seq<Token>, tail: string) returns (tokens': seq<Token>)
    requires AreTokens(tokens) && tokens != [] && IsDigit(c) && tokens[0].gap != ""
    ensures AreTokens(tokens') && Print(tokens', tail) == [c] + Print(tokens, tail)
  {
    var first := tokens[0];
    var shorter := first.(gap := first.gap[1..]);
    var rest := [shorter] + tokens[1..];
    tokens' := [Token("", [c], first.gap[0])] + rest;
    PrintFirst(shorter, tokens[1..], tail);
    PrintFirst(tokens'[0], rest, tail);
    NoGap([c] + ([first.gap[0]] + Print(rest, tail)));
    PushOne(first.gap[0], shorter.gap, first.digits + ([first.unit] + Print(tokens[1..], tail)));
    assert first.gap == [first.gap[0]] + shorter.gap;
  }

  lemma {:induction false} RunSplits(st: Scan, a: string, b: string)
    requires AllDigits(st.digits)
    ensures Run(st, a + b) == match Run(st, a) case None => None case Some(mid) => Run(mid, b)
    decreases |a|
  {
    if a == "" {
      assert a + b == b;
    } else {
      assert (a + b)[1..] == a[1..] + b;
      var next := Step(st, a[0]);
      if next.Some? {
        RunSplits(next.value, a[1..], b);
      }
    }
  }

  lemma {:induction false} RunDigits(st: Scan, digits: string)
    requires AllDigits(st.digits) && AllDigits(digits)
    ensures Run(st, digits) == Some(st.(digits := st.digits + digits))
    decreases |digits|
  {
    if digits == "" {
      assert st.digits + digits == st.digits;
    } else {
      RunDigits(st.(digits := st.digits + [digits[0]]), digits[1..]);
      assert st.digits + [digits[0]] + digits[1..] == st.digits + digits;
    }
  }

  lemma {:induction false} RunGap(st: Scan, gap: string)
    requires st.digits == "" && NoDigits(gap)
    ensures Run(st, gap) == Some(st)
    decreases |gap|
  {
    if gap != "" {
      RunGap(st, gap[1..]);
    }
  }

  /** The sum and the flag after a token. */
  function Taken(total: nat, matched: bool, t: Token): Scan
    requires IsToken(t)
  {
    Scan(Saturate(total + TokenSeconds(t)), matched || Counts(t), "")
  }

  lemma SaturatedSum(a: nat, b: nat)
    ensures Saturate(Saturate(a) + Saturate(b)) == Saturate(a + b)
  {
  }

  lemma StepUnit(total: nat, matched: bool, t: Token)
    requires IsToken(t)
    ensures Step(Scan(Saturate(total), matched, t.digits), t.unit)
         == if Readable([t]) then Some(Taken(total, matched, t)) else None
  {
    UnitsInNumbers(t.unit);
    SaturatedSum(total, TokenSeconds(t));
    assert Readable([t]) <==> (Counts([t][0]) ==> NumberOf([t][0].digits) < U64_RANGE);
  }

  lemma RunOne(st: Scan, c: char, rest: string)
    requires AllDigits(st.digits)
    ensures Run(st, [c] + rest) == match Step(st, c) case None => None case Some(next) => Run(next, rest)
  {
    assert ([c] + rest)[1..] == rest;
  }

  lemma RunToken(total: nat, matched: bool, t: Token, rest: string)
    requires IsToken(t)
    ensures Run(Scan(Saturate(total), matched, ""), t.gap + (t.digits + ([t.unit] + rest)))
         == if Readable([t]) then Run(Taken(total, matched, t), rest) else None
  {
    var st, tail := Scan(Saturate(total), matched, ""), [t.unit] + rest;
    RunSplits(st, t.gap, t.digits + tail);
    RunGap(st, t.gap);
    RunSplits(st, t.digits, tail);
    RunDigits(st, t.digits);
    assert "" + t.digits == t.digits;
    RunOne(st.(digits := t.digits), t.unit, rest);
    StepUnit(total, matched, t);
  }

  lemma FirstToken(tokens: seq<Token>)
    requires AreTokens(tokens) && tokens != []
    ensures AreTokens(tokens[1..])
    ensures Readable(tokens) <==> Readable([tokens[0]]) && Readable(tokens[1..])
    ensures AnyCounts(tokens) <==> Counts(tokens[0]) || AnyCounts(tokens[1..])
  {
    assert forall i :: 1 <= i < |tokens| ==> tokens[i] == tokens[1..][i - 1];
    assert [tokens[0]][0] == tokens[0];
    if Readable([tokens[0]]) && Readable(tokens[1..]) {
      forall i | 0 <= i < |tokens| && Counts(tokens[i]) ensures NumberOf(tokens[i].digits) < U64_RANGE {
        if i > 0 {
          assert Counts(tokens[1..][i - 1]);
        }
      }
    }
    if i :| 0 <= i < |tokens| && Counts(tokens[i]) {
      assert i > 0 ==> Counts(tokens[1..][i - 1]);
    }
  }

  lemma RunTail(st: Scan, after: string, digits: string)
    requires st.digits == "" && NoDigits(after) && AllDigits(digits)
    ensures Run(st, after + digits) == Some(st.(digits := digits))
  {
    RunSplits(st, after, digits);
    RunGap(st, after);
    RunDigits(st, digits);
    assert "" + digits == digits;
  }

  lemma {:induction false} RunPrinted(tokens: seq<Token>, after: string, digits: string, total: nat, matched: bool)
    requires AreTokens(tokens) && NoDigits(after) && AllDigits(digits)
    ensures Run(Scan(Saturate(total), matched, ""), Print(tokens, after + digits))
         == if Readable(tokens)
            then Some(Scan(Saturate(total + TotalOf(tokens)), matched || AnyCounts(tokens), digits)) else None
    decreases |tokens|
  {
    if tokens == [] {
      RunTail(Scan(Saturate(total), matched, ""), after, digits);
    } else {
      FirstToken(tokens);
      RunToken(total, matched, tokens[0], Print(tokens[1..], after + digits));
      if Readable([tokens[0]]) {
        RunPrinted(tokens[1..], after, digits, total + TokenSeconds(tokens[0]), matched || Counts(tokens[0]));
      }
    }
  }

  lemma RunFromStart(st: Scan, tokens: seq<Token>, after: string, digits: string)
    requires st == START && AreTokens(tokens) && NoDigits(after) && AllDigits(digits)
    ensures Run(st, Print(tokens, after + digits))
         == if Readable(tokens) then Some(Scan(Saturate(TotalOf(tokens)), AnyCounts(tokens), digits)) else None
  {
    RunPrinted(tokens, after, digits, st.total, st.matched);
  }

  /**
    What a text parses to, whatever stands in it: nothing when no number has a unit or one that has exceeds 64 bits,
    otherwise the sum of the numbers with units, up to the largest 64-bit number.
   */
  lemma ParseExactly(tokens: seq<Token>, after: string, digits: string)
    requires AreTokens(tokens) && NoDigits(after) && AllDigits(digits)
    ensures ParseDuration(Print(tokens, after + digits))
         == if AnyCounts(tokens) && Readable(tokens) then Some(Min(TotalOf(tokens), 0xFFFF_FFFF_FFFF_FFFF)) else None
  {
    RunFromStart(START, tokens, after, digits);
    ParsedRun(Print(tokens, after + digits), Readable(tokens), TotalOf(tokens), AnyCounts(tokens), digits);
  }

  lemma ParseAllTokens(tokens: seq<Token>)
    requires AreTokens(tokens) && AnyCounts(tokens) && Readable(tokens) && TotalOf(tokens) < U64_RANGE
    ensures ParseDuration(Print(tokens, "")) == Some(TotalOf(tokens))
  {
    assert "" + "" == "";
    ParseExactly(tokens, "", "");
  }

  lemma ParsedRun(s: string, readable: bool, total: nat, matched: bool, digits: string)
    requires Run(START, s)
          == if readable then Some(Scan(Saturate(total), matched, digits)) else None
    ensures ParseDuration(s) == if matched && readable then Some(Min(total, 0xFFFF_FFFF_FFFF_FFFF)) else None
  {
  }

  lemma HoursOver(hours: nat, rest: nat)
    ensures (hours * 3_600 + rest) % 3_600 == rest % 3_600
  {
  }

  lemma MinutesOver(minutes: nat, rest: nat)
    ensures (minutes * 60 + rest) % 60 == rest % 60
  {
  }

  lemma TimeAddsUp(secs: nat)
    ensures secs / DAY * DAY + secs % DAY / 3_600 * 3_600 + secs % 3_600 / 60 * 60 + secs % 60 == secs
  {
    var day, hour := secs % DAY, secs % 3_600;
    HoursOver(secs / DAY * 24, day);
    assert secs / DAY * 24 * 3_600 + day == secs && day % 3_600 == hour;
    MinutesOver(secs / 3_600 * 60, hour);
    assert secs / 3_600 * 60 * 60 + hour == secs && hour % 60 == secs % 60;
    assert day / 3_600 * 3_600 + hour == day && hour / 60 * 60 + secs % 60 == hour;
  }

  lemma TotalOfFirst(t: Token, rest: seq<Token>)
    requires IsToken(t) && AreTokens(rest)
    ensures AreTokens([t] + rest) && TotalOf([t] + rest) == TokenSeconds(t) + TotalOf(rest)
  {
    assert ([t] + rest)[1..] == rest;
  }

  predicate IsNumber(digits: string) { digits != "" && AllDigits(digits) && NumberOf(digits) < U64_RANGE }

  function Times(d: string, h: string, m: string, s: string): seq<Token> {
    [Token("", d, 'd'), Token(" ", h, 'h'), Token(" ", m, 'm'), Token(" ", s, 's')]
  }

  lemma TimesCount(d: string, h: string, m: string, s: string)
    requires IsNumber(d) && IsNumber(h) && IsNumber(m) && IsNumber(s)
    ensures var t := Times(d, h, m, s); AreTokens(t) && AnyCounts(t) && Readable(t)
  {
    assert Counts(Times(d, h, m, s)[0]);
  }

  lemma TotalOfTwo(a: Token, b: Token, rest: seq<Token>)
    requires IsToken(a) && IsToken(b) && AreTokens(rest)
    ensures AreTokens([a, b] + rest) && TotalOf([a, b] + rest) == TokenSeconds(a) + TokenSeconds(b) + TotalOf(rest)
  {
    TotalOfFirst(b, rest);
    TotalOfFirst(a, [b] + rest);
    assert [a] + ([b] + rest) == [a, b] + rest;
  }

  lemma TotalOfFour(a: Token, b: Token, c: Token, d: Token)
    requires IsToken(a) && IsToken(b) && IsToken(c) && IsToken(d)
    ensures TotalOf([a, b, c, d]) == TokenSeconds(a) + TokenSeconds(b) + TokenSeconds(c) + TokenSeconds(d)
  {
    TotalOfTwo(c, d, []);
    TotalOfTwo(a, b, [c, d]);
    assert [c, d] + [] == [c, d] && [a, b] + [c, d] == [a, b, c, d];
  }

  lemma TimesAddUp(d: string, h: string, m: string, s: string)
    requires IsNumber(d) && IsNumber(h) && IsNumber(m) && IsNumber(s)
    ensures AreTokens(Times(d, h, m, s))
    ensures TotalOf(Times(d, h, m, s))
         == NumberOf(d) * 86_400 + NumberOf(h) * 3_600 + NumberOf(m) * 60 + NumberOf(s)
  {
    TotalOfFour(Token("", d, 'd'), Token(" ", h, 'h'), Token(" ", m, 'm'), Token(" ", s, 's'));
  }

  lemma DecimalIsNumber(n: nat)
    requires n < U64_RANGE
    ensures IsNumber(Decimal(n)) && NumberOf(Decimal(n)) == n
  {
    DecimalReadsBack(n);
  }

  /** A remaining time in days, hours, minutes and seconds, as in `29d 23h 59m 58s`. */
  function TimeTokens(secs: nat): seq<Token> {
    Times(Decimal(secs / 86_400), Decimal(secs % 86_400 / 3_600), Decimal(secs % 3_600 / 60), Decimal(secs % 60))
  }

  function TimeLeft(secs: nat): string { Print(TimeTokens(secs), "") }

  lemma TimesTotal(secs: u64, d: string, h: string, m: string, s: string)
    requires IsNumber(d) && IsNumber(h) && IsNumber(m) && IsNumber(s)
    requires NumberOf(d) == secs / 86_400 && NumberOf(h) == secs % 86_400 / 3_600
    requires NumberOf(m) == secs % 3_600 / 60 && NumberOf(s) == secs % 60
    ensures AreTokens(Times(d, h, m, s)) && TotalOf(Times(d, h, m, s)) == secs
  {
    TimesAddUp(d, h, m, s);
    TimeAddsUp(secs);
  }

  lemma TimesReadBack(secs: u64, d: string, h: string, m: string, s: string)
    requires IsNumber(d) && IsNumber(h) && IsNumber(m) && IsNumber(s)
    requires AreTokens(Times(d, h, m, s)) && TotalOf(Times(d, h, m, s)) == secs
    ensures ParseDuration(Print(Times(d, h, m, s), "")) == Some(secs)
  {
    TimesCount(d, h, m, s);
    ParseAllTokens(Times(d, h, m, s));
  }

  lemma PrintedReadsBack(secs: u64, d: string, h: string, m: string, s: string)
    requires IsNumber(d) && IsNumber(h) && IsNumber(m) && IsNumber(s)
    requires NumberOf(d) == secs / 86_400 && NumberOf(h) == secs % 86_400 / 3_600
    requires NumberOf(m) == secs % 3_600 / 60 && NumberOf(s) == secs % 60
    ensures ParseDuration(Print(Times(d, h, m, s), "")) == Some(secs)
  {
    TimesTotal(secs, d, h, m, s);
    TimesReadBack(secs, d, h, m, s);
  }

  lemma PrintedTimeReadsBack(secs: u64)
    ensures ParseDuration(TimeLeft(secs)) == Some(secs)
  {
    DecimalIsNumber(secs / 86_400);
    DecimalIsNumber(secs % 86_400 / 3_600);
    DecimalIsNumber(secs % 3_600 / 60);
    DecimalIsNumber(secs % 60);
    PrintedReadsBack(secs, Decimal(secs / 86_400), Decimal(secs % 86_400 / 3_600), Decimal(secs % 3_600 / 60),
                     Decimal(secs % 60));
  }

  // ----- Age -----

  /** `ban_age_secs`: up to the next rung, or above the ladder up to the next whole day. */
  function Age(remaining: u64): u64
  {
    if remaining <= LADDER[0] then LADDER[0] - remaining
    else if remaining <= LADDER[1] then LADDER[1] - remaining
    else if remaining <= LADDER[2] then LADDER[2] - remaining
    else if remaining <= LADDER[3] then LADDER[3] - remaining
    else ((remaining + DAY - 1) / DAY * DAY % U64_RANGE - remaining) % U64_RANGE
  }

  /** The lengths bans are issued for, in seconds: 30, 90, 180 and 360 days. */
  function Issued(rung: nat): nat
    requires rung < 4
  {
    match rung case 0 => 2_592_000 case 1 => 7_776_000 case 2 => 15_552_000 case 3 => 31_104_000
  }

  function PreviousRung(rung: nat): nat
    requires rung < 4
  {
    if rung == 0 then 0 else Issued(rung - 1)
  }

  /** A ban of a ladder length is judged exactly as old as it is, until its remainder reaches the rung below. */
  lemma {:induction false} AgeOnLadder(rung: nat, elapsed: nat)
    requires rung < 4 && elapsed <= Issued(rung)
    ensures Age(Issued(rung) - elapsed) == elapsed
            <==> elapsed < Issued(rung) - PreviousRung(rung) || (rung == 0 && elapsed == Issued(0))
  {
  }

  /** Above the ladder the age is under a day and completes the remaining time to whole days, wrap-around included. */
  lemma {:induction false} AgeAboveLadder(remaining: u64)
    requires 31_104_000 < remaining
    ensures Age(remaining) < 86_400 && (remaining + Age(remaining)) % 86_400 == 0
  {
    var up := (remaining + DAY - 1) / DAY * DAY;
    assert remaining <= up < remaining + DAY && up % DAY == 0;
    if up < U64_RANGE {
      assert (up % U64_RANGE - remaining) % U64_RANGE == up - remaining;
    } else {
      assert up % U64_RANGE == up - U64_RANGE;
      assert (up - U64_RANGE - remaining) % U64_RANGE == up - remaining;
    }
  }

  /** `ban_is_recent`, the configured limit a parameter. */
  predicate IsRecent(duration: Option<string>, limit: nat) {
    match duration
    case None => true
    case Some(s) =>
      match ParseDuration(s)
      case None => true
      case Some(remaining) => Age(remaining) <= limit
  }

  /**
    The gate for every duration: a ban without one, without a number that has a unit, or with one beyond 64 bits is
    recent; any other exactly when the age its time left gives is within the limit.
   */
  lemma RecentExactly(tokens: seq<Token>, after: string, digits: string, limit: nat)
    requires AreTokens(tokens) && NoDigits(after) && AllDigits(digits)
    ensures IsRecent(None, limit)
    ensures IsRecent(Some(Print(tokens, after + digits)), limit)
            <==> !AnyCounts(tokens) || !Readable(tokens) || Age(Min(TotalOf(tokens), 0xFFFF_FFFF_FFFF_FFFF)) <= limit
  {
    ParseExactly(tokens, after, digits);
  }

  lemma RecentExactlyWhenYoung(rung: nat, elapsed: nat, remaining: u64, limit: nat)
    requires rung < 4 && remaining + elapsed == Issued(rung) && elapsed < Issued(rung) - PreviousRung(rung)
    ensures IsRecent(Some(TimeLeft(remaining)), limit) <==> elapsed <= limit
  {
    assert ParseDuration(TimeLeft(remaining)) == Some(remaining) by {
      PrintedTimeReadsBack(remaining);
    }
    AgeOnLadder(rung, elapsed);
  }

  // ----- From the disconnect message to the verdict -----

  predicate LooksLikeDuration(text: string) {
    var t := Trim(text);
    t != "" && IsDigit(t[0]) && ('d' in t || 'h' in t || 'm' in t || 's' in t)
  }

  /** The duration `parse_ban_reason` picks from the extracted texts. */
  function DurationIn(texts: seq<string>): Option<string> {
    if texts == [] then None
    else if LooksLikeDuration(texts[0]) then Some(Trim(texts[0]))
    else DurationIn(texts[1..])
  }

  /** A text counts as a duration when, white space dropped, it starts with a digit and has a unit's letter. */
  lemma {:induction false} LooksExactly(left: string, core: string, right: string)
    requires AllSpace(left) && AllSpace(right) && Trimmed(core)
    ensures LooksLikeDuration(left + (core + right))
            <==> core != "" && '0' <= core[0] <= '9'
                 && exists i :: 0 <= i < |core| && core[i] in ['d', 'h', 'm', 's']
  {
    TrimOfPadded(left, core, right);
  }

  lemma {:induction false} PrintEnds(tokens: seq<Token>)
    requires tokens != []
    ensures var p := Print(tokens, ""); p != "" && p[|p| - 1] == tokens[|tokens| - 1].unit
  {
    if |tokens| > 1 {
      PrintEnds(tokens[1..]);
    }
  }

  lemma {:induction false} DurationAmong(strings: seq<string>, at: nat)
    requires at < |strings| && strings[at] != "" && LooksLikeDuration(strings[at])
    requires forall i :: 0 <= i < at ==> !LooksLikeDuration(strings[i])
    ensures DurationIn(BanText.NonEmpty(strings)) == Some(Trim(strings[at]))
  {
    var s, rest := strings[0], BanText.NonEmpty(strings[1..]);
    assert s != "" ==> ([s] + rest)[0] == s && ([s] + rest)[1..] == rest;
    assert s == "" ==> Trim(s) == "" && [] + rest == rest;
    if at > 0 {
      DurationAmong(strings[1..], at - 1);
    }
  }

  lemma EndsLikeDuration(p: string)
    requires p != "" && IsDigit(p[0]) && p[|p| - 1] == 's'
    ensures LooksLikeDuration(p) && Trim(p) == p
  {
    TrimOfTrimmed(p);
    assert p[|p| - 1] in p;
  }

  lemma TimeLeftLooksLikeDuration(secs: nat)
    ensures LooksLikeDuration(TimeLeft(secs)) && Trim(TimeLeft(secs)) == TimeLeft(secs)
  {
    var t := TimeTokens(secs);
    PrintEnds(t);
    assert TimeLeft(secs)[0] == t[0].digits[0];
    EndsLikeDuration(TimeLeft(secs));
  }

  lemma DurationFound(strings: seq<string>, at: nat, secs: u64)
    requires at < |strings| && strings[at] == TimeLeft(secs)
    requires forall i :: 0 <= i < at ==> !LooksLikeDuration(strings[i])
    ensures DurationIn(BanText.NonEmpty(strings)) == Some(strings[at])
  {
    TimeLeftLooksLikeDuration(secs);
    DurationAmong(strings, at);
  }

  /** The first duration-like text of a disconnect message is the one the extractor's caller picks. */
  lemma {:induction false} DurationInMessage(fillers: seq<string>, strings: seq<string>, at: nat, secs: u64,
                                             p: BanText.Printable)
    requires |fillers| == |strings| + 1 && at < |strings|
    requires forall s :: s in strings ==> BanText.AllPlain(s)
    requires forall f :: f in fillers ==> !Contains(f, BanText.PREFIX)
    requires strings[at] == TimeLeft(secs) && forall i :: 0 <= i < at ==> !LooksLikeDuration(strings[i])
    ensures DurationIn(BanText.Extract(BanText.Render(fillers, strings, p), 0)) == Some(TimeLeft(secs))
  {
    var texts := BanText.Extract(BanText.Render(fillers, strings, p), 0);
    assert texts == BanText.NonEmpty(strings) by {
      BanText.ExtractInvertsRender(fillers, strings, p);
    }
    DurationFound(strings, at, secs);
  }

  /**
    End to end: in a disconnect message whose first duration-like text is the printed remaining time of a
    ladder-length ban issued `elapsed` seconds ago, the ban is judged recent exactly while `elapsed` is within the
    limit.
   */
  lemma {:induction false} JudgedRecentWhileYoung(
    fillers: seq<string>, strings: seq<string>, at: nat, rung: nat, elapsed: nat, remaining: u64, limit: nat,
    p: BanText.Printable)
    requires |fillers| == |strings| + 1 && at < |strings|
    requires forall s :: s in strings ==> BanText.AllPlain(s)
    requires forall f :: f in fillers ==> !Contains(f, BanText.PREFIX)
    requires rung < 4 && remaining + elapsed == Issued(rung) && elapsed < Issued(rung) - PreviousRung(rung)
    requires strings[at] == TimeLeft(remaining)
    requires forall i :: 0 <= i < at ==> !LooksLikeDuration(strings[i])
    ensures IsRecent(DurationIn(BanText.Extract(BanText.Render(fillers, strings, p), 0)), limit) <==> elapsed <= limit
  {
    DurationInMessage(fillers, strings, at, remaining, p);
    RecentExactlyWhenYoung(rung, elapsed, remaining, limit);
  }
}
