/**
  `src/auction_ownership.rs`: the item-name normaliser, the own-listing history and the ownership verdict.
 */
module OwnListings {
  import opened Wrappers
  import opened Text

  const LISTING_TTL: nat := 7 * 24 * 60 * 60
  const MAX_LISTINGS := 2000
  const MIN_CONTAINMENT := 4

  // ----- The one-pass normaliser -----

  /** The maximal runs of ASCII letters and digits, lower-cased; `run` is the one being read. */
  function Words(s: string, run: string): seq<string>
    decreases |s|
  {
    var closed := if run == "" then [] else [run];
    if s == "" then closed
    else if IsAlnum(s[0]) then Words(s[1..], run + [LowerChar(s[0])])
    else closed + Words(s[1..], "")
  }

  function Join(words: seq<string>): string {
    if words == [] then ""
    else if |words| == 1 then words[0]
    else words[0] + (" " + Join(words[1..]))
  }

  /** A canonical name: its lower-cased words, one space apart. */
  function Normalize(name: string): string { Join(Words(RemoveColors(name), "")) }

  predicate LowerAlnum(c: char) { IsDigit(c) || 'a' <= c <= 'z' }

  predicate IsWord(w: string) { w != "" && forall i :: 0 <= i < |w| ==> LowerAlnum(w[i]) }

  predicate AreWords(words: seq<string>) { forall i :: 0 <= i < |words| ==> IsWord(words[i]) }

  lemma {:induction false} WordsAreWords(s: string, run: string)
    requires run == "" || IsWord(run)
    ensures AreWords(Words(s, run))
    decreases |s|
  {
    if s != "" {
      WordsAreWords(s[1..], if IsAlnum(s[0]) then run + [LowerChar(s[0])] else "");
    }
  }

  lemma {:induction false} JoinCharacters(words: seq<string>)
    requires AreWords(words)
    ensures var j := Join(words);
            && (forall i :: 0 <= i < |j| ==> LowerAlnum(j[i]) || j[i] == ' ')
            && (forall i :: 0 <= i < |j| - 1 ==> LowerAlnum(j[i]) || LowerAlnum(j[i + 1]))
            && (words != [] ==> j != "" && LowerAlnum(j[0]) && LowerAlnum(j[|j| - 1]))
  {
    if |words| > 1 {
      JoinCharacters(words[1..]);
    }
    if words != [] {
      assert IsWord(words[0]);
    }
  }

  predicate LetterOrDigit(c: char) { '0' <= c <= '9' || 'a' <= c <= 'z' || 'A' <= c <= 'Z' }

  predicate AllAlnum(s: string) { forall i :: 0 <= i < |s| ==> LetterOrDigit(s[i]) }

  predicate NoAlnum(s: string) { forall i :: 0 <= i < |s| ==> !LetterOrDigit(s[i]) }

  /** Letters and digits read on go into the run, lower-cased. */
  lemma {:induction false} WordsOfLetters(w: string, rest: string, run: string)
    requires AllAlnum(w)
    ensures Words(w + rest, run) == Words(rest, run + ToLower(w))
    decreases |w|
  {
    if w == "" {
      assert w + rest == rest && run + ToLower(w) == run;
    } else {
      assert (w + rest)[1..] == w[1..] + rest && run + [LowerChar(w[0])] + ToLower(w[1..]) == run + ToLower(w);
      WordsOfLetters(w[1..], rest, run + [LowerChar(w[0])]);
    }
  }

  lemma {:induction false} WordsOfGap(gap: string, rest: string)
    requires NoAlnum(gap)
    ensures Words(gap + rest, "") == Words(rest, "")
    decreases |gap|
  {
    if gap == "" {
      assert gap + rest == rest;
    } else {
      assert (gap + rest)[1..] == gap[1..] + rest;
      WordsOfGap(gap[1..], rest);
    }
  }

  lemma WordEnds(rest: string, run: string)
    requires run != "" && (rest != "" ==> !IsAlnum(rest[0]))
    ensures Words(rest, run) == [run] + Words(rest, "")
  {
  }

  /** A name as the game shows it: words in any letter case, with decoration around and between them. */
  function Decorated(words: seq<string>, gaps: seq<string>, tail: string): string
    requires |gaps| == |words|
  {
    if words == [] then tail else gaps[0] + (words[0] + Decorated(words[1..], gaps[1..], tail))
  }

  predicate Shows(words: seq<string>, gaps: seq<string>, tail: string) {
    && |gaps| == |words| && NoAlnum(tail)
    && (forall i :: 0 <= i < |words| ==> words[i] != "" && AllAlnum(words[i]) && NoAlnum(gaps[i]))
    && (forall i :: 1 <= i < |words| ==> gaps[i] != "")
  }

  function Lowered(words: seq<string>): seq<string> {
    seq(|words|, i requires 0 <= i < |words| => ToLower(words[i]))
  }

  lemma {:induction false} WordsOfDecorated(words: seq<string>, gaps: seq<string>, tail: string)
    requires Shows(words, gaps, tail)
    ensures Words(Decorated(words, gaps, tail), "") == Lowered(words)
    decreases |words|
  {
    if words == [] {
      WordsOfGap(tail, "");
      assert tail + "" == tail;
    } else {
      var rest := Decorated(words[1..], gaps[1..], tail);
      WordsOfGap(gaps[0], words[0] + rest);
      WordsOfLetters(words[0], rest, "");
      assert "" + ToLower(words[0]) == ToLower(words[0]);
      assert rest != "" ==> !IsAlnum(rest[0]);
      WordEnds(rest, ToLower(words[0]));
      WordsOfDecorated(words[1..], gaps[1..], tail);
      assert Lowered(words) == [ToLower(words[0])] + Lowered(words[1..]);
    }
  }

  /** A shown name normalises to its words in lower case: colours, decoration and letter case make no difference. */
  lemma {:induction false} ShownNameNormalizes(name: string, words: seq<string>, gaps: seq<string>, tail: string)
    requires Shows(words, gaps, tail) && RemoveColors(name) == Decorated(words, gaps, tail)
    ensures Normalize(name) == Join(Lowered(words)) && Words(Normalize(name), "") == Lowered(words)
  {
    WordsOfDecorated(words, gaps, tail);
    WordsAreWords(RemoveColors(name), "");
    WordsOfJoin(Lowered(words));
  }

  lemma {:induction false} WordsOfJoin(words: seq<string>)
    requires AreWords(words)
    ensures Words(Join(words), "") == words
    decreases |words|
  {
    if words != [] {
      var rest := if |words| == 1 then "" else " " + Join(words[1..]);
      assert IsWord(words[0]) && Join(words) == words[0] + rest;
      WordsOfLetters(words[0], rest, "");
      assert ToLower(words[0]) == words[0] && "" + words[0] == words[0];
      if |words| > 1 {
        assert rest[1..] == Join(words[1..]);
        WordsOfJoin(words[1..]);
        assert words == [words[0]] + words[1..];
      }
    }
  }

  /** Normalising a normalised name changes nothing. */
  lemma NormalizeIdempotent(name: string)
    ensures Normalize(Normalize(name)) == Normalize(name)
  {
    var words := Words(RemoveColors(name), "");
    WordsAreWords(RemoveColors(name), "");
    JoinCharacters(words);
    NoColorsToRemove(Join(words));
    WordsOfJoin(words);
  }

  /** Two names normalise alike exactly when their lower-cased words are the same. */
  lemma SameNameSameWords(a: string, b: string)
    ensures Normalize(a) == Normalize(b) <==> Words(RemoveColors(a), "") == Words(RemoveColors(b), "")
  {
    WordsAreWords(RemoveColors(a), "");
    WordsAreWords(RemoveColors(b), "");
    WordsOfJoin(Words(RemoveColors(a), ""));
    WordsOfJoin(Words(RemoveColors(b), ""));
  }

  lemma {:induction false} JoinExtends(words: seq<string>, w: string)
    ensures Join(words + [w]) == if words == [] then w else Join(words) + " " + w
  {
    if words != [] {
      assert (words + [w])[1..] == words[1..] + [w];
      JoinExtends(words[1..], w);
      if |words| == 1 {
        assert Join(words + [w]) == words[0] + (" " + w);
      } else {
        assert words[0] + (" " + (Join(words[1..]) + " " + w)) == words[0] + (" " + Join(words[1..])) + " " + w;
      }
    }
  }

  /** The output buffer after the words `done`, inside `run` (or after a separator when `run` is empty). */
  ghost function Buffer(done: seq<string>, run: string): string {
    if run != "" then Join(done + [run])
    else if done == [] then ""
    else Join(done) + " "
  }

  lemma BufferGrows(done: seq<string>, run: string, c: char)
    ensures Buffer(done, run) + [c] == Buffer(done, run + [c])
    ensures run != "" ==> Buffer(done, run) + " " == Buffer(done + [run], "")
  {
    JoinExtends(done, run);
    JoinExtends(done, run + [c]);
    if done != [] {
      assert Join(done) + " " + run + [c] == Join(done) + " " + (run + [c]);
    }
  }

  lemma TrimmedBuffer(done: seq<string>, run: string)
    requires AreWords(done) && (run == "" || IsWord(run))
    ensures Trim(Buffer(done, run)) == Join(done + Words("", run))
  {
    var words := done + Words("", run);
    JoinCharacters(words);
    TrimOfTrimmed(Join(words));
    if run == "" {
      assert words == done;
      if done != [] {
        var b := Join(done) + " ";
        assert TrimStart(b) == b && b[..|b| - 1] == Join(done);
      }
    }
  }

  /** What one character does to the words read so far. */
  lemma WordsStep(s: string, i: nat, done: seq<string>, run: string)
    requires i < |s|
    ensures done + Words(s[i..], run)
         == if IsAlnum(s[i]) then done + Words(s[i + 1..], run + [LowerChar(s[i])])
            else if run == "" then done + Words(s[i + 1..], "")
            else (done + [run]) + Words(s[i + 1..], "")
  {
    assert s[i..][0] == s[i] && s[i..][1..] == s[i + 1..];
    var later := Words(s[i + 1..], "");
    assert [] + later == later && done + ([run] + later) == (done + [run]) + later;
  }

  /** Where the pass stands after `i` characters: `done` words closed, `run` being written. */
  ghost predicate Midway(s: string, i: nat, done: seq<string>, run: string, out: string, lastWasSpace: bool) {
    && i <= |s|
    && lastWasSpace == (run == "") && out == Buffer(done, run)
    && AreWords(done) && (run == "" || IsWord(run))
    && done + Words(s[i..], run) == Words(s, "")
  }

  lemma MidwayLetter(s: string, i: nat, done: seq<string>, run: string, out: string, lastWasSpace: bool)
    requires Midway(s, i, done, run, out, lastWasSpace) && i < |s| && IsAlnum(s[i])
    ensures Midway(s, i + 1, done, run + [LowerChar(s[i])], out + [LowerChar(s[i])], false)
  {
    WordsStep(s, i, done, run);
    BufferGrows(done, run, LowerChar(s[i]));
  }

  lemma MidwayOther(s: string, i: nat, done: seq<string>, run: string, out: string, lastWasSpace: bool)
    requires Midway(s, i, done, run, out, lastWasSpace) && i < |s| && !IsAlnum(s[i])
    ensures Midway(s, i + 1, if run == "" then done else done + [run], "",
                   if lastWasSpace then out else out + " ", true)
  {
    WordsStep(s, i, done, run);
    BufferGrows(done, run, ' ');
  }

  lemma MidwayEnd(s: string, done: seq<string>, run: string, out: string, lastWasSpace: bool)
    requires Midway(s, |s|, done, run, out, lastWasSpace)
    ensures Trim(out) == Join(Words(s, ""))
  {
    assert s[|s|..] == "";
    TrimmedBuffer(done, run);
  }

  method NormalizeItemName(name: string) returns (r: string)
    ensures r == Normalize(name)
  {
    var stripped := RemoveColors(name);
    var out, lastWasSpace := "", true;
    ghost var done: seq<string>, run: string := [], "";
    var i := 0;
    assert stripped[0..] == stripped && [] + Words(stripped, "") == Words(stripped, "");
    while i < |stripped|
      invariant Midway(stripped, i, done, run, out, lastWasSpace)
    {
      var c := stripped[i];
      if IsAlnum(c) {
        MidwayLetter(stripped, i, done, run, out, lastWasSpace);
        out := out + [LowerChar(c)];
        lastWasSpace := false;
        run := run + [LowerChar(c)];
      } else {
        MidwayOther(stripped, i, done, run, out, lastWasSpace);
        done, run := if run == "" then done else done + [run], "";
        if !lastWasSpace {
          out := out + " ";
          lastWasSpace := true;
        }
      }
      i := i + 1;
    }
    MidwayEnd(stripped, done, run, out, lastWasSpace);
    r := Trim(out);
  }

  // ----- The listing history -----

  /** One auction known to be ours; no prices means the name alone decides. */
  datatype OwnAuction = OwnAuction(name: string, prices: seq<int>, recordedAt: nat)

  datatype Ownership = Ours | Foreign | Unknown

  function Cutoff(now: nat): nat { if now < LISTING_TTL then 0 else now - LISTING_TTL }

  function Live(l: seq<OwnAuction>, cutoff: nat): (r: seq<OwnAuction>)
    ensures |r| <= |l|
  {
    if l == [] then []
    else (if l[0].recordedAt >= cutoff then [l[0]] else []) + Live(l[1..], cutoff)
  }

  /** `prune`: entries past their week go, then the oldest positions beyond the cap. */
  function Prune(l: seq<OwnAuction>, now: nat): (r: seq<OwnAuction>)
    ensures |r| <= MAX_LISTINGS
  {
    var live := Live(l, Cutoff(now));
    if |live| > MAX_LISTINGS then live[|live| - MAX_LISTINGS..] else live
  }

  /** The entry a relisting refreshes instead of adding one. */
  function SameListing(l: seq<OwnAuction>, name: string, price: int): (r: Option<nat>)
    ensures r.Some? ==> r.value < |l| && l[r.value].name == name && price in l[r.value].prices
  {
    if l == [] then None
    else if l[0].name == name && price in l[0].prices then Some(0)
    else match SameListing(l[1..], name, price)
      case None => None
      case Some(i) => Some(i + 1)
  }

  /** The list with a listing entered, before it is pruned. */
  function Entered(l: seq<OwnAuction>, name: string, price: int, now: nat): seq<OwnAuction> {
    match SameListing(l, name, price)
    case Some(i) => l[i := l[i].(recordedAt := now)]
    case None => l + [OwnAuction(name, if price > 0 then [price] else [], now)]
  }

  /** Entry `i` is the first of that name that holds the price. */
  predicate IsFirst(l: seq<OwnAuction>, name: string, price: int, i: nat) {
    && i < |l| && l[i].name == name && price in l[i].prices
    && forall j :: 0 <= j < i ==> l[j].name != name || price !in l[j].prices
  }

  lemma {:induction false} SameListingIsFirst(l: seq<OwnAuction>, name: string, price: int)
    ensures match SameListing(l, name, price)
            case Some(i) => IsFirst(l, name, price, i)
            case None => forall i :: 0 <= i < |l| ==> l[i].name != name || price !in l[i].prices
  {
    if l != [] && (l[0].name != name || price !in l[0].prices) {
      SameListingIsFirst(l[1..], name, price);
      assert forall i :: 1 <= i < |l| ==> l[i] == l[1..][i - 1];
    }
  }

  /** A relisting renews the first entry of its name and price, and only a listing without one adds an entry. */
  lemma {:induction false} EnteredExactly(l: seq<OwnAuction>, name: string, price: int, now: nat)
    ensures var after := Entered(l, name, price, now);
            && (forall i: nat :: IsFirst(l, name, price, i) ==> after == l[i := OwnAuction(name, l[i].prices, now)])
            && ((forall i: nat :: !IsFirst(l, name, price, i)) ==>
                  after == l + [OwnAuction(name, if price > 0 then [price] else [], now)])
  {
    SameListingIsFirst(l, name, price);
  }

  function Note(l: seq<OwnAuction>, name: string, price: int, now: nat): seq<OwnAuction> {
    if name == "" then l else Prune(Entered(l, name, price, now), now)
  }

  /** Equal names, or one inside the other when the shorter is long enough to mean something. */
  predicate NamesMatch(a: string, b: string) {
    a != "" && b != "" &&
    (a == b || var (short, long) := if |a| <= |b| then (a, b) else (b, a);
               |short| >= MIN_CONTAINMENT && Contains(long, short))
  }

  predicate Matches(a: OwnAuction, name: string, price: Option<int>) {
    NamesMatch(a.name, name) && (price.Some? && a.prices != [] ==> price.value in a.prices)
  }

  predicate AnyMatches(l: seq<OwnAuction>, name: string, price: Option<int>) {
    exists i :: 0 <= i < |l| && Matches(l[i], name, price)
  }

  function Verdict(own: seq<OwnAuction>, remote: seq<OwnAuction>, fetched: bool, name: string, price: Option<int>)
    : Ownership
  {
    if name == "" then Unknown
    else if AnyMatches(own, name, price) || AnyMatches(remote, name, price) then Ours
    else if own != [] || fetched then Foreign
    else Unknown
  }

  /** One name is the other, or stands inside it and has at least four characters. */
  ghost predicate NameFits(a: string, b: string) {
    a != "" && b != "" && (a == b || OccursIn(a, b) || OccursIn(b, a))
  }

  ghost predicate OccursIn(a: string, b: string) { |a| >= 4 && exists at: nat :: OccursAt(a, b, at) }

  /** No price is asked for, or the entry holds none, or it holds that one. */
  predicate PriceFits(a: OwnAuction, price: Option<int>) {
    price == None || a.prices == [] || price.value in a.prices
  }

  ghost predicate Known(l: seq<OwnAuction>, name: string, price: Option<int>) {
    exists i :: 0 <= i < |l| && NameFits(l[i].name, name) && PriceFits(l[i], price)
  }

  lemma {:induction false} SameLengthInside(a: string, b: string)
    requires |b| <= |a| && OccursIn(a, b)
    ensures a == b
  {
    var at: nat :| OccursAt(a, b, at);
    assert forall i :: 0 <= i < |a| ==> b[at + i] == a[i];
  }

  lemma {:induction false} FitsIsMatch(a: OwnAuction, name: string, price: Option<int>)
    ensures Matches(a, name, price) <==> NameFits(a.name, name) && PriceFits(a, price)
  {
    OccursIsContained(a.name, name);
    OccursIsContained(name, a.name);
    if |name| <= |a.name| && OccursIn(a.name, name) {
      SameLengthInside(a.name, name);
    }
    if |a.name| <= |name| && OccursIn(name, a.name) {
      SameLengthInside(name, a.name);
    }
  }

  /**
    The verdict: ours exactly when an own or fetched entry fits by name and price, otherwise foreign exactly when
    anything was listed or fetched; a name without words is unknown.
   */
  lemma {:induction false} VerdictExactly(own: seq<OwnAuction>, remote: seq<OwnAuction>, fetched: bool, name: string,
                                          price: Option<int>)
    ensures Verdict(own, remote, fetched, name, price)
         == if name == "" then Unknown
            else if Known(own, name, price) || Known(remote, name, price) then Ours
            else if |own| > 0 || fetched then Foreign else Unknown
  {
    forall a: OwnAuction ensures Matches(a, name, price) <==> NameFits(a.name, name) && PriceFits(a, price) {
      FitsIsMatch(a, name, price);
    }
  }

  /** The process-wide stores behind the verdicts. */
  class ListingStore {
    var own: seq<OwnAuction>
    var remote: seq<OwnAuction>
    var remoteFetched: bool

    constructor ()
      ensures own == [] && remote == [] && !remoteFetched
    {
      own, remote, remoteFetched := [], [], false;
    }

    method NoteOwnListing(itemName: string, price: int, now: nat)
      modifies this`own
      ensures own == Note(old(own), Normalize(itemName), price, now)
    {
      var name := NormalizeItemName(itemName);
      if name == "" {
        return;
      }
      var existing := SameListing(own, name, price);
      if existing.Some? {
        own := own[existing.value := own[existing.value].(recordedAt := now)];
      } else {
        own := own + [OwnAuction(name, if price > 0 then [price] else [], now)];
      }
      own := Prune(own, now);
    }

    method OwnershipOf(itemName: string, price: Option<int>) returns (o: Ownership)
      ensures o == Verdict(own, remote, remoteFetched, Normalize(itemName), price)
    {
      var name := NormalizeItemName(itemName);
      if name == "" {
        return Unknown;
      }
      var hasData := own != [] || remoteFetched;
      if AnyMatches(own, name, price) || AnyMatches(remote, name, price) {
        return Ours;
      }
      return if hasData then Foreign else Unknown;
    }
  }

  // ----- How long a listing is remembered -----

  /** An entry for this name and price, recorded no earlier than `since`. */
  predicate StandsAt(l: seq<OwnAuction>, i: nat, name: string, price: int, since: nat)
    requires i < |l|
  {
    l[i].name == name && price in l[i].prices && since <= l[i].recordedAt
  }

  lemma {:induction false} LiveKeeps(l: seq<OwnAuction>, cutoff: nat, i: nat) returns (j: nat)
    requires i < |l| && l[i].recordedAt >= cutoff
    ensures j < |Live(l, cutoff)| && Live(l, cutoff)[j] == l[i]
    ensures |Live(l, cutoff)| - 1 - j == |Live(l[i + 1..], cutoff)|
  {
    if i == 0 {
      j := 0;
    } else {
      var k := LiveKeeps(l[1..], cutoff, i - 1);
      assert l[1..][i..] == l[i + 1..];
      j := if l[0].recordedAt >= cutoff then k + 1 else k;
    }
  }

  lemma {:induction false} LiveCameFrom(l: seq<OwnAuction>, cutoff: nat, j: nat) returns (i: nat)
    requires j < |Live(l, cutoff)|
    ensures i < |l| && l[i] == Live(l, cutoff)[j] && l[i].recordedAt >= cutoff
    ensures |Live(l, cutoff)| - 1 - j == |Live(l[i + 1..], cutoff)|
  {
    var here := l[0].recordedAt >= cutoff;
    if here && j == 0 {
      i := 0;
    } else {
      var k := LiveCameFrom(l[1..], cutoff, if here then j - 1 else j);
      assert l[1..][k + 1..] == l[k + 2..];
      i := k + 1;
    }
  }

  /** A matching entry within its week, and under the cap counted from the newest. */
  predicate Lasts(l: seq<OwnAuction>, i: nat, now: nat, name: string, price: Option<int>)
    requires i < |l|
  {
    Matches(l[i], name, price) && l[i].recordedAt >= Cutoff(now)
    && |Live(l[i + 1..], Cutoff(now))| < MAX_LISTINGS
  }

  lemma {:induction false} KeptCameFrom(l: seq<OwnAuction>, now: nat, k: nat) returns (i: nat)
    requires k < |Prune(l, now)|
    ensures i < |l| && l[i] == Prune(l, now)[k] && l[i].recordedAt >= Cutoff(now)
    ensures |Live(l[i + 1..], Cutoff(now))| < MAX_LISTINGS
  {
    var live, kept := Live(l, Cutoff(now)), Prune(l, now);
    assert kept[k] == live[k + |live| - |kept|];
    i := LiveCameFrom(l, Cutoff(now), k + |live| - |kept|);
  }

  lemma {:induction false} LastingIsKept(l: seq<OwnAuction>, now: nat, i: nat) returns (k: nat)
    requires i < |l| && l[i].recordedAt >= Cutoff(now) && |Live(l[i + 1..], Cutoff(now))| < MAX_LISTINGS
    ensures k < |Prune(l, now)| && Prune(l, now)[k] == l[i]
  {
    var live, kept := Live(l, Cutoff(now)), Prune(l, now);
    var j := LiveKeeps(l, Cutoff(now), i);
    k := j - (|live| - |kept|);
    assert kept[k] == live[j];
  }

  /** Pruning keeps a match exactly when one is still within its week and under the cap counted from the newest. */
  lemma {:induction false} PruneKeepsMatches(l: seq<OwnAuction>, now: nat, name: string, price: Option<int>)
    ensures AnyMatches(Prune(l, now), name, price) <==> exists i :: 0 <= i < |l| && Lasts(l, i, now, name, price)
  {
    var kept := Prune(l, now);
    if k :| 0 <= k < |kept| && Matches(kept[k], name, price) {
      var i := KeptCameFrom(l, now, k);
      assert Lasts(l, i, now, name, price);
    }
    if i :| 0 <= i < |l| && Lasts(l, i, now, name, price) {
      var k := LastingIsKept(l, now, i);
      assert Matches(kept[k], name, price);
    }
  }

  /** How many entries are within their week, in seconds. */
  function WithinWeek(l: seq<OwnAuction>, now: nat): nat {
    if l == [] then 0 else (if l[0].recordedAt + 604_800 >= now then 1 else 0) + WithinWeek(l[1..], now)
  }

  lemma {:induction false} LiveWithinWeek(l: seq<OwnAuction>, now: nat)
    ensures |Live(l, Cutoff(now))| == WithinWeek(l, now)
  {
    if l != [] {
      LiveWithinWeek(l[1..], now);
    }
  }

  /** What a pruning leaves, in numbers: the entries of the last 604,800 seconds, of those the newest 2000. */
  lemma {:induction false} PruneExactly(l: seq<OwnAuction>, now: nat, a: OwnAuction)
    ensures a in Prune(l, now) <==>
      exists i :: 0 <= i < |l| && l[i] == a && a.recordedAt + 604_800 >= now && WithinWeek(l[i + 1..], now) < 2000
    ensures |Prune(l, now)| == if WithinWeek(l, now) > 2000 then 2000 else WithinWeek(l, now)
  {
    var kept := Prune(l, now);
    LiveWithinWeek(l, now);
    if a in kept {
      var k :| 0 <= k < |kept| && kept[k] == a;
      var i := KeptCameFrom(l, now, k);
      LiveWithinWeek(l[i + 1..], now);
      assert l[i] == a;
    }
    if i :| 0 <= i < |l| && l[i] == a && a.recordedAt + 604_800 >= now && WithinWeek(l[i + 1..], now) < 2000 {
      LiveWithinWeek(l[i + 1..], now);
      var k := LastingIsKept(l, now, i);
    }
  }

  /** A listing without a usable price is judged ours whatever price is shown, a priced one at its price or at none. */
  lemma {:induction false} NewListingJudged(l: seq<OwnAuction>, name: string, price: int, now: nat,
                                            remote: seq<OwnAuction>, fetched: bool, shown: Option<int>)
    requires name != "" && SameListing(l, name, price).None?
    ensures price <= 0 || shown == None || shown == Some(price) ==>
              Verdict(Note(l, name, price, now), remote, fetched, name, shown) == Ours
  {
    var entered := Entered(l, name, price, now);
    assert entered[|l| + 1..] == [] && entered[|l|].name == name;
    var k := LastingIsKept(entered, now, |l|);
    if price <= 0 || shown == None || shown == Some(price) {
      assert Matches(Prune(entered, now)[k], name, shown);
    }
  }

  ghost predicate Held(l: seq<OwnAuction>, name: string, price: int, since: nat) {
    exists i :: 0 <= i < |l| && StandsAt(l, i, name, price, since)
  }

  /** Such an entry with fewer entries within their week standing after it than the cap. */
  ghost predicate HasRoom(l: seq<OwnAuction>, name: string, price: int, since: nat, now: nat) {
    exists i :: 0 <= i < |l| && StandsAt(l, i, name, price, since) && |Live(l[i + 1..], Cutoff(now))| < MAX_LISTINGS
  }

  /** Within the week, pruning keeps the listing exactly when it has room. */
  lemma {:induction false} PruneHolds(l: seq<OwnAuction>, now: nat, name: string, price: int, since: nat)
    requires now <= since + LISTING_TTL
    ensures Held(Prune(l, now), name, price, since) <==> HasRoom(l, name, price, since, now)
  {
    var kept := Prune(l, now);
    if k :| 0 <= k < |kept| && StandsAt(kept, k, name, price, since) {
      var i := KeptCameFrom(l, now, k);
      assert StandsAt(l, i, name, price, since);
    }
    if i :| 0 <= i < |l| && StandsAt(l, i, name, price, since) && |Live(l[i + 1..], Cutoff(now))| < MAX_LISTINGS {
      var k := LastingIsKept(l, now, i);
      assert StandsAt(kept, k, name, price, since);
    }
  }

  /** A listing that writes an entry of this name and price, new or refreshed. */
  predicate Writes(l: seq<OwnAuction>, other: string, otherPrice: int, name: string, price: int) {
    other == name != "" &&
    match SameListing(l, other, otherPrice)
    case Some(i) => price in l[i].prices
    case None => otherPrice == price && price > 0
  }

  /** Entering a listing leaves those held, and adds those it writes. */
  lemma {:induction false} EnteredHolds(l: seq<OwnAuction>, other: string, otherPrice: int, now: nat,
                                        name: string, price: int, since: nat)
    requires since <= now && other != ""
    ensures Held(Entered(l, other, otherPrice, now), name, price, since)
            <==> Held(l, name, price, since) || Writes(l, other, otherPrice, name, price)
  {
    var l', existing := Entered(l, other, otherPrice, now), SameListing(l, other, otherPrice);
    if i :| 0 <= i < |l| && StandsAt(l, i, name, price, since) {
      assert StandsAt(l', i, name, price, since);
    }
    if Writes(l, other, otherPrice, name, price) {
      assert StandsAt(l', if existing.Some? then existing.value else |l|, name, price, since);
    }
    if i :| 0 <= i < |l'| && StandsAt(l', i, name, price, since) {
      if i < |l| && l'[i] == l[i] {
        assert StandsAt(l, i, name, price, since);
      }
    }
  }

  lemma RoomIsHeld(l: seq<OwnAuction>, name: string, price: int, since: nat, now: nat)
    requires HasRoom(l, name, price, since, now)
    ensures Held(l, name, price, since)
  {
    var i :| 0 <= i < |l| && StandsAt(l, i, name, price, since) && |Live(l[i + 1..], Cutoff(now))| < MAX_LISTINGS;
  }

  // ----- Runs of listings -----

  /** A listing as the chat reports it, and when. */
  datatype Listing = Listing(itemName: string, price: int, at: nat)

  function NoteListing(l: seq<OwnAuction>, x: Listing): seq<OwnAuction> {
    Note(l, Normalize(x.itemName), x.price, x.at)
  }

  function NoteAll(l: seq<OwnAuction>, run: seq<Listing>): seq<OwnAuction>
    decreases |run|
  {
    if run == [] then l else NoteListing(NoteAll(l, run[..|run| - 1]), run[|run| - 1])
  }

  /** At listing `k` of the run an entry of the name and price is written. */
  predicate WritesAt(l: seq<OwnAuction>, run: seq<Listing>, k: nat, name: string, price: int)
    requires k < |run|
  {
    Writes(NoteAll(l, run[..k]), Normalize(run[k].itemName), run[k].price, name, price)
  }

  /** At listing `k` of the run the pruning buries what was held: every such entry has the cap standing after it. */
  ghost predicate BuriedAt(l: seq<OwnAuction>, run: seq<Listing>, k: nat, name: string, price: int, since: nat)
    requires k < |run|
  {
    var other, x := Normalize(run[k].itemName), run[k];
    var entered := Entered(NoteAll(l, run[..k]), other, x.price, x.at);
    other != "" && Held(entered, name, price, since) && !HasRoom(entered, name, price, since, x.at)
  }

  lemma NoteAllNext(l: seq<OwnAuction>, run: seq<Listing>, k: nat)
    requires k < |run|
    ensures NoteAll(l, run[..k + 1]) == NoteListing(NoteAll(l, run[..k]), run[k])
  {
    assert run[..k + 1][..k] == run[..k];
  }

  /** One listing of the week keeps what is held, and takes in what it writes, exactly when it does not bury it. */
  lemma {:induction false} NoteKeepsExactly(l: seq<OwnAuction>, run: seq<Listing>, k: nat, name: string, price: int,
                                            since: nat)
    requires k < |run| && since <= run[k].at <= since + LISTING_TTL
    ensures Held(NoteAll(l, run[..k + 1]), name, price, since)
            <==> !BuriedAt(l, run, k, name, price, since)
                 && (Held(NoteAll(l, run[..k]), name, price, since) || WritesAt(l, run, k, name, price))
  {
    var before, other, x := NoteAll(l, run[..k]), Normalize(run[k].itemName), run[k];
    NoteAllNext(l, run, k);
    if other != "" {
      var entered := Entered(before, other, x.price, x.at);
      PruneHolds(entered, x.at, name, price, since);
      EnteredHolds(before, other, x.price, x.at, name, price, since);
      if HasRoom(entered, name, price, since, x.at) {
        RoomIsHeld(entered, name, price, since, x.at);
      }
    }
  }

  /** Written at listing `j`, and not buried from there to the `n`th. */
  ghost predicate KeptSince(l: seq<OwnAuction>, run: seq<Listing>, j: nat, n: nat, name: string, price: int, since: nat)
    requires n <= |run|
  {
    j < n && WritesAt(l, run, j, name, price) && forall k :: j <= k < n ==> !BuriedAt(l, run, k, name, price, since)
  }

  predicate InWeek(run: seq<Listing>, since: nat) {
    forall k :: 0 <= k < |run| ==> since <= run[k].at <= since + LISTING_TTL
  }

  // A listing is held the way a latch is: writing sets it, burying resets it and wins.

  ghost predicate IsLatch(held: seq<bool>, writes: seq<bool>, buried: seq<bool>) {
    && |held| == |writes| + 1 && |writes| == |buried|
    && forall k :: 0 <= k < |writes| ==> held[k + 1] == (!buried[k] && (held[k] || writes[k]))
  }

  ghost predicate SetSince(writes: seq<bool>, buried: seq<bool>, j: nat, n: nat)
    requires n <= |writes| == |buried|
  {
    j < n && writes[j] && forall k :: j <= k < n ==> !buried[k]
  }

  lemma {:induction false} SetIsHeld(held: seq<bool>, writes: seq<bool>, buried: seq<bool>, j: nat, n: nat)
    requires IsLatch(held, writes, buried) && n <= |writes| && SetSince(writes, buried, j, n)
    ensures held[n]
    decreases n
  {
    if j < n - 1 {
      SetIsHeld(held, writes, buried, j, n - 1);
    }
    assert held[n - 1 + 1] == (!buried[n - 1] && (held[n - 1] || writes[n - 1]));
  }

  lemma {:induction false} HeldWasSet(held: seq<bool>, writes: seq<bool>, buried: seq<bool>, n: nat) returns (j: nat)
    requires IsLatch(held, writes, buried) && 0 < n <= |writes| && writes[0] && held[n]
    ensures SetSince(writes, buried, j, n)
    decreases n
  {
    var m := n - 1;
    assert held[m + 1] == (!buried[m] && (held[m] || writes[m]));
    if writes[m] {
      j := m;
    } else {
      j := HeldWasSet(held, writes, buried, m);
    }
  }

  ghost function HeldSeq(l: seq<OwnAuction>, run: seq<Listing>, name: string, price: int, since: nat): seq<bool> {
    seq(|run| + 1, k requires 0 <= k <= |run| => Held(NoteAll(l, run[..k]), name, price, since))
  }

  ghost function WritesSeq(l: seq<OwnAuction>, run: seq<Listing>, name: string, price: int): seq<bool> {
    seq(|run|, k requires 0 <= k < |run| => WritesAt(l, run, k, name, price))
  }

  ghost function BuriedSeq(l: seq<OwnAuction>, run: seq<Listing>, name: string, price: int, since: nat): seq<bool> {
    seq(|run|, k requires 0 <= k < |run| => BuriedAt(l, run, k, name, price, since))
  }

  /** Over every run within the week, what is held follows from what is written and what is buried. */
  lemma {:induction false} ListingsLatch(l: seq<OwnAuction>, run: seq<Listing>, name: string, price: int, since: nat)
    requires InWeek(run, since)
    ensures IsLatch(HeldSeq(l, run, name, price, since), WritesSeq(l, run, name, price),
                    BuriedSeq(l, run, name, price, since))
  {
    forall k | 0 <= k < |run|
      ensures HeldSeq(l, run, name, price, since)[k + 1]
           == (!BuriedSeq(l, run, name, price, since)[k]
               && (HeldSeq(l, run, name, price, since)[k] || WritesSeq(l, run, name, price)[k]))
    {
      NoteKeepsExactly(l, run, k, name, price, since);
    }
  }

  /** What is held was written at some listing and not buried since. */
  lemma {:induction false} HeldExactly(l: seq<OwnAuction>, run: seq<Listing>, name: string, price: int, since: nat)
    requires run != [] && InWeek(run, since) && WritesAt(l, run, 0, name, price)
    ensures Held(NoteAll(l, run), name, price, since)
            <==> exists j: nat :: KeptSince(l, run, j, |run|, name, price, since)
  {
    var held, writes := HeldSeq(l, run, name, price, since), WritesSeq(l, run, name, price);
    var buried := BuriedSeq(l, run, name, price, since);
    ListingsLatch(l, run, name, price, since);
    assert run[..|run|] == run;
    assert held[|run|] == Held(NoteAll(l, run), name, price, since) && writes[0];
    if held[|run|] {
      var j := HeldWasSet(held, writes, buried, |run|);
      SetIsKept(l, run, j, name, price, since);
    }
    if j: nat :| KeptSince(l, run, j, |run|, name, price, since) {
      SetIsKept(l, run, j, name, price, since);
      SetIsHeld(held, writes, buried, j, |run|);
    }
  }

  lemma SetIsKept(l: seq<OwnAuction>, run: seq<Listing>, j: nat, name: string, price: int, since: nat)
    ensures SetSince(WritesSeq(l, run, name, price), BuriedSeq(l, run, name, price, since), j, |run|)
            <==> KeptSince(l, run, j, |run|, name, price, since)
  {
    var buried := BuriedSeq(l, run, name, price, since);
    assert forall k :: 0 <= k < |run| ==> buried[k] == BuriedAt(l, run, k, name, price, since);
  }

  lemma {:induction false} HeldIsOurs(l: seq<OwnAuction>, name: string, price: int, since: nat, remote: seq<OwnAuction>,
                                      fetched: bool)
    requires Held(l, name, price, since) && name != ""
    ensures Verdict(l, remote, fetched, name, Some(price)) == Ours
  {
    var i :| 0 <= i < |l| && StandsAt(l, i, name, price, since);
    assert Matches(l[i], name, Some(price));
  }

  /** The first listing of a run, of positive price, writes an entry of its own name and price. */
  lemma FirstWrites(l: seq<OwnAuction>, run: seq<Listing>)
    requires run != [] && run[0].price > 0 && Normalize(run[0].itemName) != ""
    ensures WritesAt(l, run, 0, Normalize(run[0].itemName), run[0].price)
  {
    assert run[..0] == [];
  }

  /**
    Over every run that starts with a listing of positive price and stays within the following week, an entry of that
    name and price recorded since is held exactly when some listing of the run wrote one and no later pruning buried
    it under the cap. Then every item with the same words and that price is judged ours.
   */
  lemma {:induction false} RememberedForAWeek(l: seq<OwnAuction>, run: seq<Listing>, itemName: string,
                                              remote: seq<OwnAuction>, fetched: bool)
    requires run != [] && run[0].price > 0 && Normalize(itemName) == Normalize(run[0].itemName) != ""
    requires InWeek(run, run[0].at)
    ensures var name, price, since := Normalize(itemName), run[0].price, run[0].at;
            && (Held(NoteAll(l, run), name, price, since)
                <==> exists j: nat :: KeptSince(l, run, j, |run|, name, price, since))
            && (Held(NoteAll(l, run), name, price, since) ==>
                  Verdict(NoteAll(l, run), remote, fetched, name, Some(price)) == Ours)
  {
    var name, price, since := Normalize(itemName), run[0].price, run[0].at;
    FirstWrites(l, run);
    HeldExactly(l, run, name, price, since);
    if Held(NoteAll(l, run), name, price, since) {
      HeldIsOurs(NoteAll(l, run), name, price, since, remote, fetched);
    }
  }

  // ----- How many listings it takes -----

  /** A held entry with at most `behind` entries standing after it. */
  ghost predicate Near(l: seq<OwnAuction>, name: string, price: int, since: nat, behind: nat) {
    exists i :: 0 <= i < |l| && StandsAt(l, i, name, price, since) && |l| - 1 - i <= behind
  }

  /** A live entry with fewer than the cap behind it keeps its place from the end. */
  lemma KeptPlace(l: seq<OwnAuction>, now: nat, j: nat) returns (k: nat)
    requires j < |Live(l, Cutoff(now))| && |Live(l, Cutoff(now))| - 1 - j < MAX_LISTINGS
    ensures k < |Prune(l, now)| && Prune(l, now)[k] == Live(l, Cutoff(now))[j]
    ensures |Prune(l, now)| - 1 - k == |Live(l, Cutoff(now))| - 1 - j
  {
    k := j - (|Live(l, Cutoff(now))| - |Prune(l, now)|);
  }

  lemma NearAt(l: seq<OwnAuction>, i: nat, name: string, price: int, since: nat, behind: nat)
    requires i < |l| && StandsAt(l, i, name, price, since) && |l| - 1 - i <= behind
    ensures Near(l, name, price, since, behind)
  {
  }

  lemma {:induction false} PruneNear(l: seq<OwnAuction>, now: nat, name: string, price: int, since: nat, behind: nat)
    requires Near(l, name, price, since, behind) && behind < MAX_LISTINGS && now <= since + LISTING_TTL
    ensures Near(Prune(l, now), name, price, since, behind)
  {
    var i: nat :| i < |l| && StandsAt(l, i, name, price, since) && |l| - 1 - i <= behind;
    var j := LiveKeeps(l, Cutoff(now), i);
    var k := KeptPlace(l, now, j);
    NearAt(Prune(l, now), k, name, price, since, behind);
  }

  lemma {:induction false} EnteredNear(l: seq<OwnAuction>, other: string, otherPrice: int, now: nat,
                                       name: string, price: int, since: nat, behind: nat)
    requires Near(l, name, price, since, behind) && since <= now
    ensures Near(Entered(l, other, otherPrice, now), name, price, since, behind + 1)
  {
    var i :| 0 <= i < |l| && StandsAt(l, i, name, price, since) && |l| - 1 - i <= behind;
    assert StandsAt(Entered(l, other, otherPrice, now), i, name, price, since);
  }

  lemma {:induction false} NoteNear(l: seq<OwnAuction>, x: Listing, name: string, price: int, since: nat, behind: nat)
    requires Near(l, name, price, since, behind) && behind + 1 < MAX_LISTINGS && since <= x.at <= since + LISTING_TTL
    ensures Near(NoteListing(l, x), name, price, since, behind + 1)
  {
    var other := Normalize(x.itemName);
    if other == "" {
      var i :| 0 <= i < |l| && StandsAt(l, i, name, price, since) && |l| - 1 - i <= behind;
    } else {
      EnteredNear(l, other, x.price, x.at, name, price, since, behind);
      PruneNear(Entered(l, other, x.price, x.at), x.at, name, price, since, behind + 1);
    }
  }

  lemma {:induction false} RunNear(l: seq<OwnAuction>, run: seq<Listing>, name: string, price: int, since: nat,
                                   behind: nat)
    requires Near(l, name, price, since, behind) && behind + |run| < MAX_LISTINGS && InWeek(run, since)
    ensures Near(NoteAll(l, run), name, price, since, behind + |run|)
    decreases |run|
  {
    if run != [] {
      var front, last := run[..|run| - 1], run[|run| - 1];
      RunNear(l, front, name, price, since, behind);
      NoteNear(NoteAll(l, front), last, name, price, since, behind + |front|);
    }
  }

  /** A listing new to the history ends at its end. */
  lemma {:induction false} NewListingIsLast(l: seq<OwnAuction>, x: Listing)
    requires x.price > 0 && Normalize(x.itemName) != "" && SameListing(l, Normalize(x.itemName), x.price).None?
    ensures Near(NoteListing(l, x), Normalize(x.itemName), x.price, x.at, 0)
  {
    var name := Normalize(x.itemName);
    var entered := Entered(l, name, x.price, x.at);
    assert StandsAt(entered, |l|, name, x.price, x.at);
    PruneNear(entered, x.at, name, x.price, x.at, 0);
  }

  /**
    A listing of positive price whose entry stands with at most `behind` entries after it is judged ours through any
    further listings of the week that, with those, are fewer than the cap.
   */
  lemma {:induction false} RememberedByCount(l: seq<OwnAuction>, run: seq<Listing>, name: string, price: int,
                                             since: nat, behind: nat, remote: seq<OwnAuction>, fetched: bool)
    requires Near(l, name, price, since, behind) && behind + |run| < MAX_LISTINGS && InWeek(run, since) && name != ""
    ensures Near(NoteAll(l, run), name, price, since, behind + |run|)
    ensures Verdict(NoteAll(l, run), remote, fetched, name, Some(price)) == Ours
  {
    RunNear(l, run, name, price, since, behind);
    var own := NoteAll(l, run);
    assert Held(own, name, price, since) by {
      var i :| 0 <= i < |own| && StandsAt(own, i, name, price, since) && |own| - 1 - i <= behind + |run|;
    }
    HeldIsOurs(own, name, price, since, remote, fetched);
  }

  /** So a listing new to the history is judged ours through any 1999 further listings of its week. */
  lemma {:induction false} NewListingRemembered(l: seq<OwnAuction>, listed: Listing, run: seq<Listing>,
                                                itemName: string, remote: seq<OwnAuction>, fetched: bool)
    requires listed.price > 0 && Normalize(itemName) == Normalize(listed.itemName) != ""
    requires SameListing(l, Normalize(itemName), listed.price).None?
    requires |run| <= 1999 && forall k :: 0 <= k < |run| ==> listed.at <= run[k].at <= listed.at + 604_800
    ensures var own := NoteAll(NoteListing(l, listed), run);
            Verdict(own, remote, fetched, Normalize(itemName), Some(listed.price)) == Ours
  {
    NewListingIsLast(l, listed);
    RememberedByCount(NoteListing(l, listed), run, Normalize(itemName), listed.price, listed.at, 0, remote, fetched);
  }
}
