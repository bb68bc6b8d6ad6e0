/**
  The `text: "..."` extractor at the head of `parse_ban_reason` in `src/webhook.rs`, against a printer
  in the style of Rust's `Debug` for strings.

  The disconnect reason is modelled by its bytes, each written as the character with that code: the
  extractor turns every byte into exactly that character. Which characters beyond ASCII `Debug` writes as they
  are, in UTF-8, and which it writes as a `\u{..}` escape, is a parameter.
 */
module BanText {
  import opened Wrappers
  import opened Text

  const PREFIX: string := "text: \""
  const PREFIX_LENGTH := 7

  /** The byte `Debug` writes after a backslash, for the three escapes the extractor undoes. */
  function Unescape(c: char): Option<char> {
    if c == 'n' then Some('\n') else if c == '"' then Some('"') else if c == '\\' then Some('\\') else None
  }

  /** The value of one quoted string and where its closing quote is, or the end of the message. */
  datatype Quoted = Quoted(value: string, end: nat)

  /** The inner loop from byte `i`. */
  function Content(reason: string, i: nat): (r: Quoted)
    requires i <= |reason|
    ensures i <= r.end <= |reason|
    decreases |reason| - i
  {
    if i == |reason| || reason[i] == '"' then Quoted("", i)
    else if reason[i] == '\\' && i + 1 < |reason| && Unescape(reason[i + 1]).Some? then
      var q := Content(reason, i + 2);
      Quoted([Unescape(reason[i + 1]).value] + q.value, q.end)
    else
      var q := Content(reason, i + 1);
      Quoted([reason[i]] + q.value, q.end)
  }

  function AfterQuote(reason: string, end: nat): nat {
    if end < |reason| then end + 1 else |reason|
  }

  /** Where the next quoted value begins. */
  function NextContent(reason: string, start: nat): (r: Option<nat>)
    requires start <= |reason|
    ensures r.Some? ==> start + PREFIX_LENGTH <= r.value <= |reason|
  {
    match Find(reason, PREFIX, start)
    case None => None
    case Some(at) => Some(at + PREFIX_LENGTH)
  }

  /** The outer loop from `start`: all non-empty quoted values. */
  function Extract(reason: string, start: nat): seq<string>
    requires start <= |reason|
    decreases |reason| - start
  {
    var at := NextContent(reason, start);
    if at.None? then []
    else
      var q := Content(reason, at.value);
      (if q.value != "" then [q.value] else []) + Extract(reason, AfterQuote(reason, q.end))
  }

  /** One turn of the inner loop. */
  lemma ContentStep(reason: string, i: nat) returns (c: char, next: nat)
    requires i < |reason| && reason[i] != '"'
    ensures i < next <= |reason|
    ensures if reason[i] == '\\' && i + 1 < |reason| && Unescape(reason[i + 1]).Some?
            then c == Unescape(reason[i + 1]).value && next == i + 2
            else c == reason[i] && next == i + 1
    ensures Content(reason, i) == Quoted([c] + Content(reason, next).value, Content(reason, next).end)
  {
    if reason[i] == '\\' && i + 1 < |reason| && Unescape(reason[i + 1]).Some? {
      c, next := Unescape(reason[i + 1]).value, i + 2;
    } else {
      c, next := reason[i], i + 1;
    }
  }

  method ReadContent(reason: string, start: nat) returns (s: string, i: nat)
    requires start <= |reason|
    ensures Quoted(s, i) == Content(reason, start)
  {
    s, i := "", start;
    ghost var whole := Content(reason, start);
    ghost var rest := whole;
    while i < |reason| && reason[i] != '"'
      invariant start <= i <= |reason| && rest == Content(reason, i)
      invariant whole.end == rest.end && whole.value == s + rest.value
      decreases |reason| - i
    {
      ghost var c, next := ContentStep(reason, i);
      rest := Content(reason, next);
      PushFirst(s, c, rest.value);
      if reason[i] == '\\' && i + 1 < |reason| {
        var escaped := Unescape(reason[i + 1]);
        if escaped.Some? {
          s := s + [escaped.value];
          i := i + 2;
          continue;
        }
      }
      s := s + [reason[i]];
      i := i + 1;
    }
    assert s + "" == s;
  }

  lemma ExtractMatch(reason: string, start: nat, at: nat, s: string, end: nat, next: nat) returns (rest: seq<string>)
    requires start <= |reason| && NextContent(reason, start) == Some(at)
    requires Content(reason, at) == Quoted(s, end) && next == AfterQuote(reason, end)
    ensures rest == Extract(reason, next)
    ensures Extract(reason, start) == (if s != "" then [s] else []) + rest
  {
    rest := Extract(reason, next);
  }

  method ExtractTexts(reason: string) returns (texts: seq<string>)
    ensures texts == Extract(reason, 0)
  {
    texts := [];
    var searchStart := 0;
    ghost var all := Extract(reason, searchStart);
    ghost var tail := all;
    while true
      invariant searchStart <= |reason| && tail == Extract(reason, searchStart)
      invariant texts + tail == all
      decreases |reason| - searchStart
    {
      var at := NextContent(reason, searchStart);
      if at.None? {
        assert tail == [];
        return;
      }
      var s, i := ReadContent(reason, at.value);
      ghost var rest := ExtractMatch(reason, searchStart, at.value, s, i, AfterQuote(reason, i));
      PushFirst(texts, s, rest);
      if s != "" {
        texts := texts + [s];
      }
      searchStart := AfterQuote(reason, i);
      tail := rest;
    }
  }

  // ----- The printer -----

  function HexDigit(n: nat): char
    requires n < 16
  {
    if n < 10 then ('0' as int + n) as char else ('a' as int + n - 10) as char
  }

  function Hex(n: nat): string {
    (if n < 16 then "" else Hex(n / 16)) + [HexDigit(n % 16)]
  }

  function Byte(n: nat): char
    requires n < 0x100
  {
    n as char
  }

  /** The UTF-8 bytes of a character beyond ASCII. */
  function Utf8(c: char): (r: string)
    requires 0x80 <= c as int
    ensures |r| >= 2 && forall i :: 0 <= i < |r| ==> 0x80 <= r[i] as int < 0x100
  {
    var n := c as int;
    if n < 0x800 then [Byte(0xC0 + n / 0x40), Byte(0x80 + n % 0x40)]
    else if n < 0x1_0000 then [Byte(0xE0 + n / 0x1000), Byte(0x80 + n / 0x40 % 0x40), Byte(0x80 + n % 0x40)]
    else [Byte(0xF0 + n / 0x4_0000), Byte(0x80 + n / 0x1000 % 0x40), Byte(0x80 + n / 0x40 % 0x40),
          Byte(0x80 + n % 0x40)]
  }

  /** Which characters beyond ASCII are written as they are. */
  type Printable = char -> bool

  lemma {:induction false} HexIsPlain(n: nat)
    ensures forall i :: 0 <= i < |Hex(n)| ==> Hex(n)[i] != '\\' && Hex(n)[i] != '"'
  {
    if n >= 16 {
      HexIsPlain(n / 16);
    }
  }

  function CodeEscape(c: char): string { "\\u{" + Hex(c as int) + "}" }

  /** The bytes `Debug` writes for one character of a string. */
  function EscapeChar(c: char, p: Printable): (r: string)
    ensures r != ""
  {
    if c == '"' || c == '\\' then ['\\', c]
    else if c == '\n' then "\\n"
    else if c == '\t' then "\\t"
    else if c == '\r' then "\\r"
    else if c == '\0' then "\\0"
    else if 0x20 <= c as int < 0x7F then [c]
    else if c as int >= 0x80 && p(c) then Utf8(c)
    else CodeEscape(c)
  }

  function Escape(s: string, p: Printable): string {
    if s == "" then "" else EscapeChar(s[0], p) + Escape(s[1..], p)
  }

  /** Printable ASCII, or a line break. */
  predicate Plain(c: char) { 0x20 <= c as int < 0x7F || c == '\n' }

  predicate AllPlain(s: string) { forall i :: 0 <= i < |s| ==> Plain(s[i]) }

  /** A reason with one quoted string between each two fillers. */
  function Render(fillers: seq<string>, strings: seq<string>, p: Printable): string
    requires |fillers| == |strings| + 1
  {
    if strings == [] then fillers[0]
    else fillers[0] + (PREFIX + (Escape(strings[0], p) + ("\"" + Render(fillers[1..], strings[1..], p))))
  }

  function NonEmpty(strings: seq<string>): seq<string> {
    if strings == [] then []
    else (if strings[0] != "" then [strings[0]] else []) + NonEmpty(strings[1..])
  }

  // ----- One quoted string -----

  /** What the extractor makes of one escaped character: the character back, or the escape left as it stands. */
  function Reread(c: char, p: Printable): string {
    if Plain(c) then [c] else EscapeChar(c, p)
  }

  function RereadAll(s: string, p: Printable): string {
    if s == "" then "" else Reread(s[0], p) + RereadAll(s[1..], p)
  }

  /** Only printable ASCII and line breaks come back: every other character grows into its escape or its bytes. */
  lemma {:induction false} RereadIsIdentity(s: string, p: Printable)
    ensures |RereadAll(s, p)| >= |s|
    ensures RereadAll(s, p) == s <==> AllPlain(s)
  {
    if s != "" {
      RereadIsIdentity(s[1..], p);
      assert s == [s[0]] + s[1..];
      assert !Plain(s[0]) ==> |EscapeChar(s[0], p)| >= 2;
      if Plain(s[0]) {
        assert RereadAll(s, p)[1..] == RereadAll(s[1..], p);
      }
    }
  }

  /** Whether `part` stands at index `at` of `all`. */
  predicate Holds(all: string, at: nat, part: string) {
    at + |part| <= |all| && forall i :: 0 <= i < |part| ==> all[at + i] == part[i]
  }

  lemma HoldsPieces(all: string, start: nat, a: string, b: string)
    requires Holds(all, start, a + b)
    ensures Holds(all, start, a) && Holds(all, start + |a|, b)
  {
    forall i | 0 <= i < |a| ensures all[start + i] == a[i] {
      assert all[start + i] == (a + b)[i];
    }
    forall i | 0 <= i < |b| ensures all[start + |a| + i] == b[i] {
      assert all[start + (|a| + i)] == (a + b)[|a| + i];
    }
  }

  /** Characters up to the next backslash or quote are taken as they are. */
  lemma {:induction false} ContentVerbatim(all: string, at: nat, part: string)
    requires Holds(all, at, part)
    requires forall i :: 0 <= i < |part| ==> part[i] != '\\' && part[i] != '"'
    ensures Content(all, at).value == part + Content(all, at + |part|).value
    ensures Content(all, at).end == Content(all, at + |part|).end
    decreases |part|
  {
    if part != "" {
      assert part[0] == all[at + 0];
      assert part == [part[0]] + part[1..];
      HoldsPieces(all, at, [part[0]], part[1..]);
      ContentVerbatim(all, at + 1, part[1..]);
    }
  }

  lemma ContentOfPair(all: string, at: nat, c: char)
    requires Holds(all, at, ['\\', c]) && Unescape(c).Some?
    ensures Content(all, at).value == [Unescape(c).value] + Content(all, at + 2).value
    ensures Content(all, at).end == Content(all, at + 2).end
  {
    var e := ['\\', c];
    assert e[0] == all[at + 0] && e[1] == all[at + 1];
  }

  /** A backslash before anything else is taken as it is. */
  lemma ContentOfOther(all: string, at: nat, e: string)
    requires Holds(all, at, e) && |e| > 1 && e[0] == '\\' && Unescape(e[1]).None?
    requires forall i :: 1 <= i < |e| ==> e[i] != '\\' && e[i] != '"'
    ensures Content(all, at).value == e + Content(all, at + |e|).value
    ensures Content(all, at).end == Content(all, at + |e|).end
  {
    assert all[at + 0] == e[0] && all[at + 1] == e[1];
    assert e == [e[0]] + e[1..];
    HoldsPieces(all, at, [e[0]], e[1..]);
    ContentVerbatim(all, at + 1, e[1..]);
  }

  lemma CodeEscapeShape(c: char)
    ensures var e := CodeEscape(c);
            |e| > 1 && e[0] == '\\' && e[1] == 'u' && forall i :: 1 <= i < |e| ==> e[i] != '\\' && e[i] != '"'
  {
    HexIsPlain(c as int);
  }

  /** An escape is undone, or it is text taken as it is, or it begins with a backslash the extractor keeps. */
  lemma EscapeShape(c: char, p: Printable)
    ensures var e := EscapeChar(c, p);
            if c == '"' || c == '\\' || c == '\n' then
              |e| == 2 && e[0] == '\\' && Unescape(e[1]) == Some(c) && Reread(c, p) == [c]
            else
              && Reread(c, p) == e
              && (forall i :: 1 <= i < |e| ==> e[i] != '\\' && e[i] != '"')
              && if e[0] == '\\' then |e| > 1 && Unescape(e[1]).None? else e[0] != '"'
  {
    CodeEscapeShape(c);
  }

  lemma ContentOfChar(all: string, at: nat, c: char, e: string, p: Printable)
    requires e == EscapeChar(c, p) && Holds(all, at, e)
    ensures Content(all, at).value == Reread(c, p) + Content(all, at + |e|).value
    ensures Content(all, at).end == Content(all, at + |e|).end
  {
    EscapeShape(c, p);
    if c == '"' || c == '\\' || c == '\n' {
      assert e == ['\\', e[1]];
      ContentOfPair(all, at, e[1]);
    } else if e[0] == '\\' {
      ContentOfOther(all, at, e);
    } else {
      ContentVerbatim(all, at, e);
    }
  }

  /** The first character of an escaped string is read, and its escape passed over. */
  lemma ContentOfFirst(all: string, at: nat, s: string, p: Printable) returns (piece: string, next: nat)
    requires s != "" && Holds(all, at, Escape(s, p))
    ensures at < next <= |all| && Holds(all, next, Escape(s[1..], p))
    ensures next + |Escape(s[1..], p)| == at + |Escape(s, p)|
    ensures RereadAll(s, p) == piece + RereadAll(s[1..], p)
    ensures Content(all, at).value == piece + Content(all, next).value && Content(all, at).end == Content(all, next).end
  {
    var e := EscapeChar(s[0], p);
    HoldsPieces(all, at, e, Escape(s[1..], p));
    ContentOfChar(all, at, s[0], e, p);
    piece, next := Reread(s[0], p), at + |e|;
  }

  lemma {:induction false} ContentOfEscaped(all: string, at: nat, s: string, p: Printable)
    requires Holds(all, at, Escape(s, p))
    requires at + |Escape(s, p)| < |all| && all[at + |Escape(s, p)|] == '"'
    ensures Content(all, at) == Quoted(RereadAll(s, p), at + |Escape(s, p)|)
    decreases |s|
  {
    if s != "" {
      var piece, next := ContentOfFirst(all, at, s, p);
      ContentOfEscaped(all, next, s[1..], p);
    }
  }

  // ----- The whole message -----

  /** The prefix does not overlap itself, so the first match after a filler is the one put there. */
  lemma FindAfterFiller(all: string, start: nat, filler: string)
    requires !Contains(filler, PREFIX)
    requires Holds(all, start, filler) && Holds(all, start + |filler|, PREFIX)
    ensures NextContent(all, start) == Some(start + |filler| + PREFIX_LENGTH)
  {
    FindIsFirst(filler, PREFIX, 0);
    var at := start + |filler|;
    forall i | start <= i < at
      ensures !MatchesAt(all, PREFIX, i)
    {
      assert all[i..i + |PREFIX|][6] == all[i + 6];
      if i + |PREFIX| <= at {
        assert filler == all[start..start + |filler|];
        assert filler[i - start..i - start + |PREFIX|] == all[i..i + |PREFIX|];
        assert !MatchesAt(filler, PREFIX, i - start);
      } else {
        assert all[at + (i + 6 - at)] == PREFIX[i + 6 - at];
      }
    }
    assert all[at..at + |PREFIX|] == PREFIX;
    FindIs(all, PREFIX, start, at);
  }

  lemma FindInLastFiller(all: string, start: nat, filler: string)
    requires !Contains(filler, PREFIX)
    requires Holds(all, start, filler) && |all| == start + |filler|
    ensures NextContent(all, start) == None
  {
    FindIsFirst(filler, PREFIX, 0);
    FindIsFirst(all, PREFIX, start);
    forall i | start <= i <= |all|
      ensures !MatchesAt(all, PREFIX, i)
    {
      if i + |PREFIX| <= |all| {
        assert filler == all[start..start + |filler|];
        assert filler[i - start..i - start + |PREFIX|] == all[i..i + |PREFIX|];
        assert !MatchesAt(filler, PREFIX, i - start);
      }
    }
  }

  /** The non-empty strings, as the extractor rereads them. */
  function NonEmptyReread(strings: seq<string>, p: Printable): seq<string> {
    if strings == [] then []
    else
      var s := RereadAll(strings[0], p);
      (if s != "" then [s] else []) + NonEmptyReread(strings[1..], p)
  }

  lemma {:induction false} PlainRereadsAsIs(strings: seq<string>, p: Printable)
    requires forall s :: s in strings ==> AllPlain(s)
    ensures NonEmptyReread(strings, p) == NonEmpty(strings)
  {
    if strings != [] {
      assert AllPlain(strings[0]);
      RereadIsIdentity(strings[0], p);
      PlainRereadsAsIs(strings[1..], p);
    }
  }

  lemma HoldsRendered(all: string, start: nat, fillers: seq<string>, strings: seq<string>, p: Printable)
    returns (next: nat)
    requires |fillers| == |strings| + 1 && strings != []
    requires Holds(all, start, Render(fillers, strings, p)) && |all| == start + |Render(fillers, strings, p)|
    ensures next == start + |fillers[0]| + PREFIX_LENGTH + |Escape(strings[0], p)| + 1
    ensures Holds(all, start, fillers[0]) && Holds(all, start + |fillers[0]|, PREFIX)
    ensures Holds(all, start + |fillers[0]| + PREFIX_LENGTH, Escape(strings[0], p))
    ensures next <= |all| && all[next - 1] == '"'
    ensures Holds(all, next, Render(fillers[1..], strings[1..], p))
    ensures |all| == next + |Render(fillers[1..], strings[1..], p)|
  {
    var f, e, rest := fillers[0], Escape(strings[0], p), Render(fillers[1..], strings[1..], p);
    HoldsPieces(all, start, f, PREFIX + (e + ("\"" + rest)));
    HoldsPieces(all, start + |f|, PREFIX, e + ("\"" + rest));
    HoldsPieces(all, start + |f| + PREFIX_LENGTH, e, "\"" + rest);
    HoldsPieces(all, start + |f| + PREFIX_LENGTH + |e|, "\"", rest);
    next := start + |f| + PREFIX_LENGTH + |e| + 1;
    assert all[next - 1 + 0] == "\""[0];
  }

  /** A string between a filler and a closing quote is found and read. */
  lemma QuotedFound(all: string, start: nat, filler: string, s: string, at: nat, p: Printable)
    requires !Contains(filler, PREFIX) && at == start + |filler| + PREFIX_LENGTH
    requires Holds(all, start, filler) && Holds(all, start + |filler|, PREFIX) && Holds(all, at, Escape(s, p))
    requires at + |Escape(s, p)| < |all| && all[at + |Escape(s, p)|] == '"'
    ensures NextContent(all, start) == Some(at)
    ensures Content(all, at) == Quoted(RereadAll(s, p), at + |Escape(s, p)|)
  {
    FindAfterFiller(all, start, filler);
    ContentOfEscaped(all, at, s, p);
  }

  /** And reading goes on behind the quote. */
  lemma ExtractQuoted(all: string, start: nat, filler: string, s: string, next: nat, p: Printable)
    requires !Contains(filler, PREFIX) && next == start + |filler| + PREFIX_LENGTH + |Escape(s, p)| + 1
    requires Holds(all, start, filler) && Holds(all, start + |filler|, PREFIX)
    requires Holds(all, start + |filler| + PREFIX_LENGTH, Escape(s, p)) && next <= |all| && all[next - 1] == '"'
    ensures var v := RereadAll(s, p); Extract(all, start) == (if v != "" then [v] else []) + Extract(all, next)
  {
    var at := start + |filler| + PREFIX_LENGTH;
    QuotedFound(all, start, filler, s, at, p);
    var rest := ExtractMatch(all, start, at, RereadAll(s, p), next - 1, next);
  }

  /** The first string of a rendered message is read. */
  lemma ExtractFirst(all: string, start: nat, fillers: seq<string>, strings: seq<string>, p: Printable)
    returns (next: nat)
    requires |fillers| == |strings| + 1 && strings != []
    requires !Contains(fillers[0], PREFIX)
    requires Holds(all, start, Render(fillers, strings, p)) && |all| == start + |Render(fillers, strings, p)|
    ensures start < next <= |all|
    ensures var v := RereadAll(strings[0], p); Extract(all, start) == (if v != "" then [v] else []) + Extract(all, next)
    ensures Holds(all, next, Render(fillers[1..], strings[1..], p))
    ensures |all| == next + |Render(fillers[1..], strings[1..], p)|
  {
    next := HoldsRendered(all, start, fillers, strings, p);
    ExtractQuoted(all, start, fillers[0], strings[0], next, p);
  }

  lemma {:induction false} ExtractRendered(all: string, start: nat, fillers: seq<string>, strings: seq<string>,
                                           p: Printable)
    requires |fillers| == |strings| + 1
    requires forall f :: f in fillers ==> !Contains(f, PREFIX)
    requires Holds(all, start, Render(fillers, strings, p)) && |all| == start + |Render(fillers, strings, p)|
    ensures Extract(all, start) == NonEmptyReread(strings, p)
    decreases |strings|
  {
    if strings == [] {
      FindInLastFiller(all, start, fillers[0]);
    } else {
      var next := ExtractFirst(all, start, fillers, strings, p);
      ExtractRendered(all, next, fillers[1..], strings[1..], p);
    }
  }

  /**
    Printer and extractor are inverse on every list of strings of printable ASCII and line breaks, whatever
    prefix-free text stands between them; the strings may themselves contain the prefix.
   */
  lemma {:induction false} ExtractInvertsRender(fillers: seq<string>, strings: seq<string>, p: Printable)
    requires |fillers| == |strings| + 1
    requires forall s :: s in strings ==> AllPlain(s)
    requires forall f :: f in fillers ==> !Contains(f, PREFIX)
    ensures Extract(Render(fillers, strings, p), 0) == NonEmpty(strings)
  {
    ExtractRendered(Render(fillers, strings, p), 0, fillers, strings, p);
    PlainRereadsAsIs(strings, p);
  }

  /** What comes back of one string is its rereading, escapes and split bytes included. */
  lemma OneComesBackReread(before: string, after: string, s: string, p: Printable)
    requires !Contains(before, PREFIX) && !Contains(after, PREFIX) && RereadAll(s, p) != ""
    ensures Extract(Render([before, after], [s], p), 0) == [RereadAll(s, p)]
  {
    ExtractRendered(Render([before, after], [s], p), 0, [before, after], [s], p);
    assert NonEmptyReread([s], p) == [RereadAll(s, p)] + NonEmptyReread([], p);
  }

  /** Any other character breaks the inverse: it comes back as its escape, or as one character for each of its bytes. */
  lemma OnlyPlainSurvives(before: string, after: string, s: string, p: Printable)
    requires !Contains(before, PREFIX) && !Contains(after, PREFIX) && s != ""
    ensures Extract(Render([before, after], [s], p), 0) == [s] <==> AllPlain(s)
  {
    RereadIsIdentity(s, p);
    OneComesBackReread(before, after, s, p);
  }

  /** An e with an acute accent, where `Debug` prints it as it is, comes back as two characters. */
  lemma AccentIsSplit(p: Printable)
    requires p('\U{E9}')
    ensures Extract(Render(["", ""], ["\U{E9}"], p), 0) == ["\U{C3}\U{A9}"]
  {
    var s := "\U{E9}";
    assert RereadAll(s, p) == Utf8(s[0]) + RereadAll(s[1..], p) == "\U{C3}\U{A9}";
    NoPrefixInNothing();
    OneComesBackReread("", "", s, p);
  }

  lemma NoPrefixInNothing()
    ensures !Contains("", PREFIX)
  {
    FindIsFirst("", PREFIX, 0);
  }
}
