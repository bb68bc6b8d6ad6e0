/**
  The string operations of the Rust standard library the modelled code leans on.
  A string is a sequence of characters; letter case is ASCII only.
 */
module Text {
  import opened Wrappers

  /** `char::is_whitespace`. */
  predicate IsSpace(c: char) {
    var n := c as int;
    || 0x09 <= n <= 0x0D || n == 0x20 || n == 0x85 || n == 0xA0 || n == 0x1680
    || 0x2000 <= n <= 0x200A || n == 0x2028 || n == 0x2029 || n == 0x202F || n == 0x205F || n == 0x3000
  }

  predicate IsDigit(c: char) { '0' <= c <= '9' }

  predicate IsAlnum(c: char) { IsDigit(c) || 'a' <= c <= 'z' || 'A' <= c <= 'Z' }

  function LowerChar(c: char): (r: char)
    ensures IsAlnum(c) ==> IsAlnum(r) && !('A' <= r <= 'Z')
    ensures r == c || ('A' <= c <= 'Z' && r as int == c as int + 32)
  {
    if 'A' <= c <= 'Z' then (c as int + 32) as char else c
  }

  function ToLower(s: string): (r: string)
    ensures |r| == |s|
    ensures forall i :: 0 <= i < |s| ==> r[i] == LowerChar(s[i])
  {
    seq(|s|, i requires 0 <= i < |s| => LowerChar(s[i]))
  }

  function TrimStart(s: string): string {
    if s != "" && IsSpace(s[0]) then TrimStart(s[1..]) else s
  }

  function TrimEnd(s: string): string {
    if s != "" && IsSpace(s[|s| - 1]) then TrimEnd(s[..|s| - 1]) else s
  }

  function Trim(s: string): string { TrimEnd(TrimStart(s)) }

  predicate Trimmed(s: string) {
    s != "" ==> !IsSpace(s[0]) && !IsSpace(s[|s| - 1])
  }

  predicate MatchesAt(s: string, pattern: string, at: nat) {
    at + |pattern| <= |s| && s[at..at + |pattern|] == pattern
  }

  /** `str::find` on `s[from..]`, reported as an index of `s`. */
  function Find(s: string, pattern: string, from: nat): (r: Option<nat>)
    requires from <= |s|
    ensures r.Some? ==> from <= r.value && r.value + |pattern| <= |s|
    decreases |s| - from
  {
    if MatchesAt(s, pattern, from) then Some(from)
    else if from == |s| then None
    else Find(s, pattern, from + 1)
  }

  /** `Find` reports the first match, and nothing only when there is none. */
  lemma {:induction false} FindIsFirst(s: string, pattern: string, from: nat)
    requires from <= |s|
    ensures match Find(s, pattern, from)
            case Some(at) => MatchesAt(s, pattern, at) && forall i :: from <= i < at ==> !MatchesAt(s, pattern, i)
            case None => forall i :: from <= i <= |s| ==> !MatchesAt(s, pattern, i)
    decreases |s| - from
  {
    if !MatchesAt(s, pattern, from) && from < |s| {
      FindIsFirst(s, pattern, from + 1);
    }
  }

  predicate Contains(s: string, pattern: string) { Find(s, pattern, 0).Some? }

  /** `a` stands in `b` at `at`, character by character. */
  predicate OccursAt(a: string, b: string, at: nat) {
    at + |a| <= |b| && forall i :: 0 <= i < |a| ==> b[at + i] == a[i]
  }

  lemma {:induction false} OccursIsContained(a: string, b: string)
    ensures (exists at: nat :: OccursAt(a, b, at)) <==> Contains(b, a)
  {
    FindIsFirst(b, a, 0);
    if at: nat :| OccursAt(a, b, at) {
      assert b[at..at + |a|] == a;
      assert MatchesAt(b, a, at);
    }
    if Contains(b, a) {
      var at := Find(b, a, 0).value;
      assert b[at..at + |a|] == a;
      assert OccursAt(a, b, at);
    }
  }

  /** Any index that is a first match is the one `Find` reports. */
  lemma FindIs(s: string, pattern: string, from: nat, at: nat)
    requires from <= at <= |s|
    requires MatchesAt(s, pattern, at)
    requires forall i :: from <= i < at ==> !MatchesAt(s, pattern, i)
    ensures Find(s, pattern, from) == Some(at)
  {
    FindIsFirst(s, pattern, from);
  }

  lemma MatchInTail(s: string, pattern: string, cut: nat, at: nat)
    requires cut <= at <= |s|
    ensures MatchesAt(s, pattern, at) <==> MatchesAt(s[cut..], pattern, at - cut)
  {
    if at + |pattern| <= |s| {
      assert s[at..at + |pattern|] == s[cut..][at - cut..at - cut + |pattern|];
    }
  }

  /** With no match in between, the search may start later. */
  lemma {:induction false} FindSkips(s: string, pattern: string, from: nat, cut: nat)
    requires from <= cut <= |s| && forall i :: from <= i < cut ==> !MatchesAt(s, pattern, i)
    ensures Find(s, pattern, from) == Find(s, pattern, cut)
    decreases cut - from
  {
    if from < cut {
      FindSkips(s, pattern, from + 1, cut);
    }
  }

  /** A match found in the tail, as an index of the whole. */
  function Shifted(found: Option<nat>, cut: nat): Option<nat> {
    if found.None? then None else Some(cut + found.value)
  }

  /** Searching the tail finds what searching the whole from there finds. */
  lemma {:induction false} FindShift(s: string, pattern: string, cut: nat, from: nat)
    requires cut <= from <= |s|
    ensures Find(s, pattern, from) == Shifted(Find(s[cut..], pattern, from - cut), cut)
    decreases |s| - from
  {
    MatchInTail(s, pattern, cut, from);
    if from < |s| {
      FindShift(s, pattern, cut, from + 1);
    }
  }

  /** With no match before `cut`, the first match of `s` is that of its tail. */
  lemma FindInTail(s: string, pattern: string, cut: nat)
    requires cut <= |s| && forall i :: 0 <= i < cut ==> !MatchesAt(s, pattern, i)
    ensures Find(s, pattern, 0) == Shifted(Find(s[cut..], pattern, 0), cut)
  {
    FindSkips(s, pattern, 0, cut);
    FindShift(s, pattern, cut, cut);
  }

  /** `remove_minecraft_colors`: a section sign (or its mis-decoded form) and the character after it go. */
  function RemoveColors(s: string): string {
    if s == "" then ""
    else if s[0] == '\U{00A7}' || s[0] == '\U{252C}' then (if |s| == 1 then "" else RemoveColors(s[2..]))
    else [s[0]] + RemoveColors(s[1..])
  }

  lemma {:induction false} NoColorsToRemove(s: string)
    requires forall i :: 0 <= i < |s| ==> s[i] != '\U{00A7}' && s[i] != '\U{252C}'
    ensures RemoveColors(s) == s
  {
    if s != "" {
      NoColorsToRemove(s[1..]);
    }
  }

  lemma {:induction false} TrimOfTrimmed(s: string)
    requires Trimmed(s)
    ensures Trim(s) == s
  {
  }

  predicate Plain(s: string) { forall i :: 0 <= i < |s| ==> s[i] != '\U{00A7}' && s[i] != '\U{252C}' }

  /** Ordinary text stays in front of whatever comes of the rest. */
  lemma {:induction false} PlainStays(plain: string, rest: string)
    requires Plain(plain)
    ensures RemoveColors(plain + rest) == plain + RemoveColors(rest)
    decreases |plain|
  {
    if plain == "" {
      assert plain + rest == rest;
    } else {
      assert (plain + rest)[1..] == plain[1..] + rest;
      PlainStays(plain[1..], rest);
    }
  }

  /** A section sign, in either form, goes with the character behind it, if there is one. */
  lemma {:induction false} ColorRemoved(plain: string, sign: char, code: char, rest: string)
    requires Plain(plain) && (sign == '\U{00A7}' || sign == '\U{252C}')
    ensures RemoveColors(plain + ([sign, code] + rest)) == plain + RemoveColors(rest)
    ensures RemoveColors(plain + [sign]) == plain
  {
    PlainStays(plain, [sign, code] + rest);
    PlainStays(plain, [sign]);
    assert ([sign, code] + rest)[2..] == rest;
  }

  // ----- Letter case and outer white space -----

  lemma AsciiSpaces(c: char)
    requires c as int < 0x80
    ensures IsSpace(c) <==> c == ' ' || c == '\t' || c == '\n' || c == '\r' || c as int == 11 || c as int == 12
  {
  }

  /** The same character, or the same letter once large and once small. */
  predicate SameLetter(a: char, b: char) {
    a == b || ('A' <= a <= 'Z' && b as int == a as int + 32) || ('A' <= b <= 'Z' && a as int == b as int + 32)
  }

  predicate SameUpToCase(a: string, b: string) {
    |a| == |b| && forall i :: 0 <= i < |a| ==> SameLetter(a[i], b[i])
  }

  lemma LowerAgrees(a: char, b: char)
    ensures LowerChar(a) == LowerChar(b) <==> SameLetter(a, b)
  {
  }

  /** Two strings are the same in lower case exactly when they are the same up to letter case. */
  lemma {:induction false} ToLowerAgrees(a: string, b: string)
    ensures ToLower(a) == ToLower(b) <==> SameUpToCase(a, b)
  {
    if |a| == |b| {
      forall i | 0 <= i < |a| ensures ToLower(a)[i] == ToLower(b)[i] <==> SameLetter(a[i], b[i]) {
        LowerAgrees(a[i], b[i]);
      }
    }
  }

  predicate AllSpace(s: string) { forall i :: 0 <= i < |s| ==> IsSpace(s[i]) }

  lemma {:induction false} TrimStartPadded(left: string, rest: string)
    requires AllSpace(left) && (rest != "" ==> !IsSpace(rest[0]))
    ensures TrimStart(left + rest) == rest
    decreases |left|
  {
    if left == "" {
      assert left + rest == rest;
    } else {
      assert (left + rest)[1..] == left[1..] + rest;
      TrimStartPadded(left[1..], rest);
    }
  }

  lemma {:induction false} TrimEndPadded(rest: string, right: string)
    requires AllSpace(right) && (rest != "" ==> !IsSpace(rest[|rest| - 1]))
    ensures TrimEnd(rest + right) == rest
    decreases |right|
  {
    if right == "" {
      assert rest + right == rest;
    } else {
      var s := rest + right;
      assert s[..|s| - 1] == rest + right[..|right| - 1];
      TrimEndPadded(rest, right[..|right| - 1]);
    }
  }

  /** Trimming takes off the white space around a text and nothing else. */
  lemma {:induction false} TrimOfPadded(left: string, core: string, right: string)
    requires AllSpace(left) && AllSpace(right) && Trimmed(core)
    ensures Trim(left + (core + right)) == core
  {
    if core == "" {
      assert left + (core + right) == (left + right) + "";
      TrimStartPadded(left + right, "");
    } else {
      TrimStartPadded(left, core + right);
      TrimEndPadded(core, right);
    }
  }

  /** Two padded texts are the same once lowered and trimmed exactly when they are the same up to letter case. */
  lemma {:induction false} FoldedAgree(l: string, a: string, r: string, l': string, b: string, r': string)
    requires AllSpace(l) && AllSpace(r) && AllSpace(l') && AllSpace(r') && Trimmed(a) && Trimmed(b)
    ensures Trim(ToLower(l + (a + r))) == Trim(ToLower(l' + (b + r'))) <==> SameUpToCase(a, b)
  {
    FoldedIs(l, a, r);
    FoldedIs(l', b, r');
    ToLowerAgrees(a, b);
  }

  lemma FoldedIs(l: string, a: string, r: string)
    requires AllSpace(l) && AllSpace(r) && Trimmed(a)
    ensures Trim(ToLower(l + (a + r))) == ToLower(a)
  {
    assert ToLower(l + (a + r)) == ToLower(l) + (ToLower(a) + ToLower(r));
    TrimOfPadded(ToLower(l), ToLower(a), ToLower(r));
  }

  // ----- Decimal numbers -----

  function DigitValue(c: char): nat
    requires IsDigit(c)
  {
    c as int - '0' as int
  }

  predicate AllDigits(s: string) { forall i :: 0 <= i < |s| ==> IsDigit(s[i]) }

  function NumberOf(digits: string): nat
    requires AllDigits(digits)
  {
    if digits == "" then 0 else NumberOf(digits[..|digits| - 1]) * 10 + DigitValue(digits[|digits| - 1])
  }

  function DigitChar(n: nat): char
    requires n < 10
  {
    ('0' as int + n) as char
  }

  function Decimal(n: nat): (r: string)
    ensures r != "" && AllDigits(r)
  {
    (if n < 10 then "" else Decimal(n / 10)) + [DigitChar(n % 10)]
  }

  lemma {:induction false} DecimalReadsBack(n: nat)
    ensures NumberOf(Decimal(n)) == n
  {
    var d := Decimal(n);
    if n >= 10 {
      DecimalReadsBack(n / 10);
      assert d[..|d| - 1] == Decimal(n / 10);
    } else {
      assert d[..|d| - 1] == "";
    }
  }

  /** `str::parse::<u32>`: digits after an optional plus sign, below the bound. */
  function ParseBounded(s: string, bound: nat): Option<nat> {
    var digits := if s != "" && s[0] == '+' then s[1..] else s;
    if digits != "" && AllDigits(digits) && NumberOf(digits) < bound then Some(NumberOf(digits)) else None
  }

  // ----- Trimming -----

  /** Trimming drops only spaces. */
  lemma {:induction false} TrimDropsSpaces(s: string, i: nat)
    requires i < |s|
    ensures IsSpace(s[i]) || s[i] in Trim(s)
  {
    TrimStartDropsSpaces(s, i);
    var t := TrimStart(s);
    if !IsSpace(s[i]) {
      var j :| 0 <= j < |t| && t[j] == s[i];
      TrimEndDropsSpaces(t, j);
    }
  }

  lemma {:induction false} TrimStartDropsSpaces(s: string, i: nat)
    requires i < |s|
    ensures IsSpace(s[i]) || s[i] in TrimStart(s)
  {
    if IsSpace(s[0]) && i > 0 {
      TrimStartDropsSpaces(s[1..], i - 1);
    }
  }

  lemma {:induction false} TrimEndDropsSpaces(s: string, i: nat)
    requires i < |s|
    ensures IsSpace(s[i]) || s[i] in TrimEnd(s)
  {
    if IsSpace(s[|s| - 1]) && i < |s| - 1 {
      TrimEndDropsSpaces(s[..|s| - 1], i);
    }
  }
}
