/**
  The VarInt codec and packet framing of `src/hypixel_ping.rs`.
  The functions specify the wire format; the classes carry the in-place buffer and stream.

  Bytes and 32-bit words are bounded integers. `x & 0x7f` is `x % 128`, `x >> 7` is `x / 128`,
  `byte | 0x80` on a byte below 128 adds 128, and `x << shift` on a `u32` keeps the low 32 bits.
  The reader's `num |= x` is an addition: `num` is always below the weight that divides `x`.
 */
module VarInt {
  import opened Wrappers

  type u8 = n: int | 0 <= n < 0x100
  type u32 = n: int | 0 <= n < U32_RANGE

  datatype Error = EndOfStream | TooLong | BadLength(length: int)

  const U32_RANGE := 0x1_0000_0000
  const MAX_STATUS_LENGTH := 4_000_000

  /** The VarInt of a 32-bit word: seven bits a byte, low group first. */
  function Encode(value: u32): seq<u8> {
    if value / 128 == 0 then [value % 128] else [value % 128 + 128] + Encode(value / 128)
  }

  lemma EncodeFirst(value: u32) returns (rest: seq<u8>)
    ensures rest == if value / 128 == 0 then [] else Encode(value / 128)
    ensures Encode(value) == [if value / 128 == 0 then value % 128 else value % 128 + 128] + rest
  {
    rest := if value / 128 == 0 then [] else Encode(value / 128);
  }

  /** A byte moved from what is still to be written to what is written. */
  lemma MoveOver(written: seq<u8>, byte: u8, rest: seq<u8>, tail: seq<u8>, target: seq<u8>)
    requires tail == [byte] + rest && written + tail == target
    ensures written + [byte] + rest == target
  {
    PushFirst(written, byte, rest);
  }

  lemma {:induction false} EncodedLength(value: u32)
    ensures |Encode(value)| == if value < 0x80 then 1 else if value < 0x4000 then 2 else if value < 0x20_0000 then 3
                               else if value < 0x1000_0000 then 4 else 5
  {
    if value >= 128 {
      EncodedLength(value / 128);
    }
  }

  /** `x << (7 * group)` before truncation. */
  function Shift(x: nat, group: nat): nat
    requires group < 5
  {
    if group == 0 then x
    else if group == 1 then x * 0x80
    else if group == 2 then x * 0x4000
    else if group == 3 then x * 0x20_0000
    else x * 0x1000_0000
  }

  lemma TopGroupFits(byte: u8)
    ensures byte % 128 * 0x1000_0000 % U32_RANGE == byte % 16 * 0x1000_0000
  {
    var q := byte % 128 / 16;
    assert byte % 128 == q * 16 + byte % 16;
    assert byte % 128 * 0x1000_0000 == q * U32_RANGE + byte % 16 * 0x1000_0000;
  }

  lemma GroupFits(byte: u8, group: nat)
    requires group < 4
    ensures Shift(byte % 128, group) + Shift(1, group) <= Shift(1, group + 1) <= U32_RANGE
    ensures Shift(byte % 128, group) % U32_RANGE == Shift(byte % 128, group)
  {
  }

  /** What one byte adds to the word: its low seven bits in their place, cut to 32 bits. */
  function Place(byte: u8, group: nat): (r: nat)
    requires group < 5
    ensures r + Shift(1, group) <= if group < 4 then Shift(1, group + 1) else U32_RANGE
    ensures r == Shift(if group < 4 then byte % 128 else byte % 16, group)
  {
    if group < 4 then GroupFits(byte, group); Shift(byte % 128, group) % U32_RANGE
    else TopGroupFits(byte); Shift(byte % 128, group) % U32_RANGE
  }

  /** The reader's loop once `group` bytes are consumed: the decoded word and the unread bytes. */
  function DecodeFrom(s: seq<u8>, num: u32, group: nat): (r: Result<(u32, seq<u8>), Error>)
    requires group < 5 && num < Shift(1, group)
    ensures r.Success? ==> |r.value.1| < |s|
    decreases 5 - group
  {
    if s == [] then Failure(EndOfStream)
    else
      var num' := num + Place(s[0], group);
      if s[0] < 128 then Success((num', s[1..]))
      else if group == 4 then Failure(TooLong)
      else DecodeFrom(s[1..], num', group + 1)
  }

  function Decode(s: seq<u8>): Result<(u32, seq<u8>), Error> { DecodeFrom(s, 0, 0) }

  /** `num as i32`. */
  function AsI32(value: u32): int { if value < 0x8000_0000 then value else value - U32_RANGE }

  /** One VarInt as the reader delimits it: at most five bytes, the continuation bit on all but the last. */
  predicate Terminated(bytes: seq<u8>, group: nat) {
    bytes != [] && |bytes| + group <= 5
    && if |bytes| == 1 then bytes[0] < 128 else bytes[0] >= 128 && Terminated(bytes[1..], group + 1)
  }

  /** No padding byte, and no bit above the thirty-second for the reader to drop. */
  predicate Canonical(bytes: seq<u8>, group: nat)
    requires bytes != []
  {
    var last := bytes[|bytes| - 1];
    (|bytes| > 1 ==> last != 0) && (|bytes| + group == 5 ==> last < 16)
  }

  /** The word a delimited VarInt stands for, its surplus high bits dropped. */
  function WordOf(bytes: seq<u8>, group: nat): (r: nat)
    requires Terminated(bytes, group)
    decreases |bytes|
  {
    if |bytes| == 1 then (if group < 4 then bytes[0] else bytes[0] % 16)
    else WordOf(bytes[1..], group + 1) * 128 + bytes[0] % 128
  }

  lemma JoinGroup(first: u8, high: nat, group: nat)
    requires group < 4 && Shift(high, group + 1) + Shift(1, group + 1) <= U32_RANGE
    ensures Shift(high * 128 + first % 128, group) == Place(first, group) + Shift(high, group + 1)
    ensures Shift(high * 128 + first % 128, group) + Shift(1, group) <= U32_RANGE
  {
  }

  lemma DecodeStep(bytes: seq<u8>, rest: seq<u8>, num: u32, group: nat)
    requires group < 4 && num < Shift(1, group) && bytes != [] && bytes[0] >= 128
    ensures num + Place(bytes[0], group) < Shift(1, group + 1)
    ensures DecodeFrom(bytes + rest, num, group)
         == DecodeFrom(bytes[1..] + rest, num + Place(bytes[0], group), group + 1)
  {
    assert (bytes + rest)[1..] == bytes[1..] + rest;
  }

  lemma DecodeLast(bytes: seq<u8>, rest: seq<u8>, num: u32, group: nat)
    requires group < 5 && num < Shift(1, group) && |bytes| == 1 && bytes[0] < 128
    ensures DecodeFrom(bytes + rest, num, group) == Success((num + Place(bytes[0], group), rest))
  {
    assert (bytes + rest)[1..] == rest;
  }

  lemma {:induction false} WordFits(bytes: seq<u8>, group: nat)
    requires group < 5 && Terminated(bytes, group)
    ensures Shift(WordOf(bytes, group), group) + Shift(1, group) <= U32_RANGE
    decreases |bytes|
  {
    if |bytes| > 1 {
      WordFits(bytes[1..], group + 1);
      JoinGroup(bytes[0], WordOf(bytes[1..], group + 1), group);
    }
  }

  /** One continued byte read: what is decoded and what is still to come add up as before. */
  lemma NextSum(bytes: seq<u8>, num: u32, group: nat)
    requires group < 5 && num < Shift(1, group) && Terminated(bytes, group) && |bytes| > 1
    ensures group < 4 && num + Place(bytes[0], group) < Shift(1, group + 1)
    ensures num + Place(bytes[0], group) + Shift(WordOf(bytes[1..], group + 1), group + 1)
         == num + Shift(WordOf(bytes, group), group)
  {
    WordFits(bytes[1..], group + 1);
    JoinGroup(bytes[0], WordOf(bytes[1..], group + 1), group);
  }

  lemma DecodeNext(bytes: seq<u8>, rest: seq<u8>, num: u32, group: nat) returns (num': u32)
    requires group < 5 && num < Shift(1, group) && Terminated(bytes, group) && |bytes| > 1
    ensures group < 4 && num' < Shift(1, group + 1)
    ensures num' + Shift(WordOf(bytes[1..], group + 1), group + 1) == num + Shift(WordOf(bytes, group), group)
    ensures DecodeFrom(bytes + rest, num, group) == DecodeFrom(bytes[1..] + rest, num', group + 1)
  {
    NextSum(bytes, num, group);
    DecodeStep(bytes, rest, num, group);
    num' := num + Place(bytes[0], group);
  }

  lemma {:induction false} DecodeTerminated(bytes: seq<u8>, rest: seq<u8>, num: u32, group: nat)
    requires group < 5 && num < Shift(1, group) && Terminated(bytes, group)
    ensures num + Shift(WordOf(bytes, group), group) < U32_RANGE
    ensures DecodeFrom(bytes + rest, num, group) == Success((num + Shift(WordOf(bytes, group), group), rest))
    decreases |bytes|
  {
    if |bytes| == 1 {
      WordFits(bytes, group);
      DecodeLast(bytes, rest, num, group);
    } else {
      var num' := DecodeNext(bytes, rest, num, group);
      DecodeTerminated(bytes[1..], rest, num', group + 1);
    }
  }

  lemma EncodeJoined(first: u8, high: nat)
    requires first >= 128 && high * 128 + first % 128 < U32_RANGE
    ensures high > 0 ==> Encode(high * 128 + first % 128) == [first] + Encode(high)
    ensures high == 0 ==> |Encode(high * 128 + first % 128)| == 1
  {
    var word := high * 128 + first % 128;
    assert word / 128 == high && word % 128 == first % 128 && first % 128 + 128 == first;
  }

  /** A continued byte before a tail leaves the canonical form to the tail, which must not end in a padding byte. */
  lemma CanonicalTail(first: u8, rest: seq<u8>, group: nat)
    requires rest != []
    ensures Canonical([first] + rest, group) <==> Canonical(rest, group + 1) && rest[|rest| - 1] != 0
  {
    var bytes := [first] + rest;
    assert bytes[|bytes| - 1] == rest[|rest| - 1];
  }

  /** A canonical tail is padding exactly when it stands for zero. */
  lemma PaddingIsZero(rest: seq<u8>, group: nat)
    requires group < 5 && Terminated(rest, group) && Canonical(rest, group)
    requires WordOf(rest, group) < U32_RANGE && rest == Encode(WordOf(rest, group))
    ensures rest[|rest| - 1] != 0 <==> WordOf(rest, group) > 0
  {
  }

  lemma {:induction false} EncodeWordOf(bytes: seq<u8>, group: nat)
    requires group < 5 && Terminated(bytes, group) && WordOf(bytes, group) < U32_RANGE
    ensures bytes == Encode(WordOf(bytes, group)) <==> Canonical(bytes, group)
    decreases |bytes|
  {
    if |bytes| > 1 {
      var first, rest := bytes[0], bytes[1..];
      EncodeWordOf(rest, group + 1);
      EncodeJoined(first, WordOf(rest, group + 1));
      assert bytes == [first] + rest;
      CanonicalTail(first, rest, group);
      if Canonical(rest, group + 1) {
        PaddingIsZero(rest, group + 1);
      }
    }
  }

  lemma HighFits(value: u32, group: nat)
    requires group < 5 && Shift(value, group) + Shift(1, group) <= U32_RANGE && value >= 128
    ensures group < 4 && Shift(value / 128, group + 1) + Shift(1, group + 1) <= U32_RANGE
  {
    assert value / 128 * 128 <= value;
  }

  lemma DelimitsStep(first: u8, rest: seq<u8>, group: nat)
    requires group < 4 && first >= 128 && Terminated(rest, group + 1)
    ensures Terminated([first] + rest, group)
    ensures WordOf([first] + rest, group) == WordOf(rest, group + 1) * 128 + first % 128
  {
    assert ([first] + rest)[1..] == rest;
  }

  lemma {:induction false} EncodeDelimits(value: u32, group: nat)
    requires group < 5 && Shift(value, group) + Shift(1, group) <= U32_RANGE
    ensures Terminated(Encode(value), group) && WordOf(Encode(value), group) == value
    decreases value
  {
    if value >= 128 {
      var high, first := value / 128, value % 128 + 128;
      HighFits(value, group);
      EncodeDelimits(high, group + 1);
      DelimitsStep(first, Encode(high), group);
      assert high > 0 && first % 128 == value % 128 && Encode(value) == [first] + Encode(high);
    }
  }

  lemma DecodeWhole(bytes: seq<u8>, rest: seq<u8>, group: nat)
    requires group == 0 && Terminated(bytes, group)
    ensures WordOf(bytes, group) < U32_RANGE
    ensures Decode(bytes + rest) == Success((WordOf(bytes, group), rest))
  {
    DecodeTerminated(bytes, rest, group, group);
  }

  /** The reader returns the written word and leaves the rest of the stream untouched. */
  lemma {:induction false} RoundTrip(value: u32, rest: seq<u8>)
    ensures Decode(Encode(value) + rest) == Success((value, rest))
  {
    var group := 0;
    EncodeDelimits(value, group);
    DecodeWhole(Encode(value), rest, group);
  }

  /** No encoding is a prefix of another one. */
  lemma PrefixFree(a: u32, b: u32)
    ensures Encode(a) <= Encode(b) <==> a == b
  {
    if Encode(a) <= Encode(b) {
      var rest := Encode(b)[|Encode(a)|..];
      assert Encode(b) == Encode(a) + rest && Encode(b) == Encode(b) + [];
      RoundTrip(a, rest);
      RoundTrip(b, []);
    }
  }

  /**
    The reader accepts every delimited VarInt, padded and oversized ones included. What it consumed is
    the writer's encoding of what it returned exactly when it was canonical.
   */
  lemma ReadBack(bytes: seq<u8>, rest: seq<u8>)
    requires Terminated(bytes, 0)
    ensures WordOf(bytes, 0) < U32_RANGE && Decode(bytes + rest) == Success((WordOf(bytes, 0), rest))
    ensures bytes == Encode(WordOf(bytes, 0)) <==> Canonical(bytes, 0)
  {
    DecodeTerminated(bytes, rest, 0, 0);
    EncodeWordOf(bytes, 0);
  }

  /** What a successful read consumed was one delimited VarInt, and the rest is unread. */
  lemma {:induction false} ReadIsTerminated(s: seq<u8>, num: u32, group: nat) returns (n: nat)
    requires group < 5 && num < Shift(1, group) && DecodeFrom(s, num, group).Success?
    ensures n <= |s| && Terminated(s[..n], group) && DecodeFrom(s, num, group).value.1 == s[n..]
    decreases 5 - group
  {
    if s[0] < 128 {
      n := 1;
    } else {
      var m := ReadIsTerminated(s[1..], num + Place(s[0], group), group + 1);
      n := m + 1;
      assert s[..n][1..] == s[1..][..m] && s[n..] == s[1..][m..];
    }
  }

  /** The reader accepts a stream exactly when it begins with a delimited VarInt. */
  lemma AcceptsExactly(s: seq<u8>)
    ensures Decode(s).Success? <==> exists n: nat :: n <= |s| && Terminated(s[..n], 0)
  {
    var group := 0;
    if Decode(s).Success? {
      var n := ReadIsTerminated(s, group, group);
    }
    if n: nat :| n <= |s| && Terminated(s[..n], 0) {
      assert s == s[..n] + s[n..];
      DecodeWhole(s[..n], s[n..], group);
    }
  }

  predicate AllContinue(s: seq<u8>, n: nat)
    requires n <= |s|
  {
    forall i :: 0 <= i < n ==> s[i] >= 128
  }

  lemma {:induction false} FailsFrom(s: seq<u8>, num: u32, group: nat)
    requires group < 5 && num < Shift(1, group)
    ensures DecodeFrom(s, num, group) == Failure(TooLong) <==> |s| >= 5 - group && AllContinue(s, 5 - group)
    ensures DecodeFrom(s, num, group) == Failure(EndOfStream) <==> |s| < 5 - group && AllContinue(s, |s|)
    decreases 5 - group
  {
    if s != [] && s[0] >= 128 && group < 4 {
      FailsFrom(s[1..], num + Place(s[0], group), group + 1);
      ContinueStep(s, 5 - group);
    }
  }

  lemma ContinueStep(s: seq<u8>, n: nat)
    requires s != [] && s[0] >= 128 && n > 0
    ensures n <= |s| ==> (AllContinue(s, n) <==> AllContinue(s[1..], n - 1))
    ensures AllContinue(s, |s|) <==> AllContinue(s[1..], |s| - 1)
  {
    assert forall i :: 1 <= i < |s| ==> s[i] == s[1..][i - 1];
  }

  /** A read is too long exactly on five continuation bytes, and lacks bytes exactly when there are only fewer. */
  lemma FailsExactly(s: seq<u8>)
    ensures Decode(s) == Failure(TooLong) <==> |s| >= 5 && forall i :: 0 <= i < 5 ==> s[i] >= 128
    ensures Decode(s) == Failure(EndOfStream) <==> |s| < 5 && forall i :: 0 <= i < |s| ==> s[i] >= 128
  {
    var group := 0;
    FailsFrom(s, group, group);
  }

  /** The word as a signed number: the one in range that differs by a multiple of two to the thirty-second. */
  lemma AsI32Exactly(word: u32)
    ensures -0x8000_0000 <= AsI32(word) < 0x8000_0000
    ensures AsI32(word) == word || AsI32(word) + 0x1_0000_0000 == word
  {
  }

  /** `frame`: the length, truncated to 32 bits, before the payload. */
  function Frame(payload: seq<u8>): seq<u8> { Encode(|payload| % U32_RANGE) + payload }

  /** A length in range, then exactly that many bytes. */
  function TakePayload(length: int, s: seq<u8>): Result<(seq<u8>, seq<u8>), Error> {
    if !(0 <= length <= MAX_STATUS_LENGTH) then Failure(BadLength(length))
    else if |s| < length then Failure(EndOfStream)
    else Success((s[..length], s[length..]))
  }

  /** How a status response is read. */
  function Unframe(s: seq<u8>): Result<(seq<u8>, seq<u8>), Error> {
    match Decode(s)
    case Failure(e) => Failure(e)
    case Success((word, rest)) => TakePayload(AsI32(word), rest)
  }

  /** What a reader makes of any length word and what follows: a bad length, too few bytes, or that many bytes. */
  lemma UnframeExactly(word: u32, rest: seq<u8>)
    ensures var r := Unframe(Encode(word) + rest);
            && (word >= 0x8000_0000 ==> r == Failure(BadLength(word - 0x1_0000_0000)))
            && (4_000_000 < word < 0x8000_0000 ==> r == Failure(BadLength(word)))
            && (word <= 4_000_000 && |rest| < word ==> r == Failure(EndOfStream))
            && (word <= 4_000_000 && word <= |rest| ==> r == Success((rest[..word], rest[word..])))
  {
    RoundTrip(word, rest);
  }

  lemma TakeOwnPayload(payload: seq<u8>, rest: seq<u8>, word: u32)
    requires word == |payload| % U32_RANGE
    ensures TakePayload(AsI32(word), payload + rest) == Success((payload, rest)) <==> |payload| <= MAX_STATUS_LENGTH
  {
    if |payload| <= MAX_STATUS_LENGTH {
      assert (payload + rest)[..|payload|] == payload && (payload + rest)[|payload|..] == rest;
    }
  }

  /** A frame is read back exactly when its payload is within the reader's limit. */
  lemma UnframeOfFrame(payload: seq<u8>, rest: seq<u8>)
    ensures Unframe(Frame(payload) + rest) == Success((payload, rest)) <==> |payload| <= 4_000_000
  {
    var word := |payload| % U32_RANGE;
    var s := Frame(payload) + rest;
    assert s == Encode(word) + (payload + rest);
    RoundTrip(word, payload + rest);
    TakeOwnPayload(payload, rest, word);
  }

  function FrameAll(payloads: seq<seq<u8>>): seq<u8> {
    if payloads == [] then [] else Frame(payloads[0]) + FrameAll(payloads[1..])
  }

  function UnframeAll(s: seq<u8>, count: nat): (r: Result<(seq<seq<u8>>, seq<u8>), Error>)
    ensures r.Success? ==> |r.value.0| == count && (count > 0 ==> |r.value.0[0]| <= MAX_STATUS_LENGTH)
  {
    if count == 0 then Success(([], s))
    else
      var first := Unframe(s);
      if first.Failure? then Failure(first.error) else
      var others := UnframeAll(first.value.1, count - 1);
      if others.Failure? then others else Success(([first.value.0] + others.value.0, others.value.1))
  }

  lemma UnframeFirst(payload: seq<u8>, tail: seq<u8>, count: nat)
    requires |payload| <= MAX_STATUS_LENGTH
    ensures var others := UnframeAll(tail, count);
            UnframeAll(Frame(payload) + tail, count + 1)
            == if others.Failure? then others else Success(([payload] + others.value.0, others.value.1))
  {
    UnframeOfFrame(payload, tail);
  }

  /** Reading a concatenation of frames recovers the payloads, exactly when all are within the limit. */
  lemma {:induction false} UnframeAllOfFrameAll(payloads: seq<seq<u8>>, rest: seq<u8>)
    ensures UnframeAll(FrameAll(payloads) + rest, |payloads|) == Success((payloads, rest))
            <==> forall i :: 0 <= i < |payloads| ==> |payloads[i]| <= 4_000_000
  {
    var s := FrameAll(payloads) + rest;
    if payloads == [] {
      assert s == rest;
    } else if |payloads[0]| <= MAX_STATUS_LENGTH {
      var tail := FrameAll(payloads[1..]) + rest;
      assert s == Frame(payloads[0]) + tail;
      UnframeFirst(payloads[0], tail, |payloads| - 1);
      UnframeAllOfFrameAll(payloads[1..], rest);
      var others := UnframeAll(tail, |payloads| - 1);
      assert others.Success? ==> ([payloads[0]] + others.value.0 == payloads <==> others.value.0 == payloads[1..]);
    }
  }

  /** The `Vec<u8>` the writers append to. */
  class ByteBuffer {
    var data: seq<u8>

    constructor ()
      ensures data == []
    {
      data := [];
    }

    method WriteVarint(value: u32)
      modifies this
      ensures data == old(data) + Encode(value)
    {
      var left, more := value, true;
      ghost var tail := Encode(value);
      ghost var target := data + tail;
      while more
        invariant data + tail == target
        invariant tail == if more then Encode(left) else []
        decreases more, left
      {
        ghost var rest := EncodeFirst(left);
        var byte := left % 128;
        left := left / 128;
        if left != 0 {
          byte := byte + 128;
        }
        MoveOver(data, byte, rest, tail, target);
        data := data + [byte];
        tail := rest;
        more := left != 0;
      }
    }

    method Extend(bytes: seq<u8>)
      modifies this
      ensures data == old(data) + bytes
    {
      data := data + bytes;
    }

    /** `write_string`, on the UTF-8 bytes of the string. */
    method WriteString(bytes: seq<u8>)
      modifies this
      ensures data == old(data) + Frame(bytes)
    {
      WriteVarint(|bytes| % U32_RANGE);
      Extend(bytes);
    }
  }

  method MakeFrame(payload: seq<u8>) returns (out: seq<u8>)
    ensures out == Frame(payload)
  {
    var buffer := new ByteBuffer();
    buffer.WriteVarint(|payload| % U32_RANGE);
    buffer.Extend(payload);
    out := buffer.data;
  }

  /** The bytes the peer has sent and the client has not read. */
  class ByteStream {
    var unread: seq<u8>

    constructor (bytes: seq<u8>)
      ensures unread == bytes
    {
      unread := bytes;
    }

    method ReadVarint() returns (r: Result<int, Error>)
      modifies this
      ensures match Decode(old(unread))
              case Success((word, rest)) => r == Success(AsI32(word)) && unread == rest
              case Failure(e) => r == Failure(e) && unread == if e == EndOfStream then [] else old(unread)[5..]
    {
      var num: u32, group := 0, 0;
      ghost var decoded := Decode(unread);
      while true
        invariant group < 5 && num < Shift(1, group)
        invariant |old(unread)| == |unread| + group && unread == old(unread)[group..]
        invariant decoded == DecodeFrom(unread, num, group)
        decreases 5 - group
      {
        if unread == [] {
          return Failure(EndOfStream);
        }
        var byte := unread[0];
        unread := unread[1..];
        num := num + Place(byte, group);
        if byte < 128 {
          return Success(AsI32(num));
        }
        group := group + 1;
        if 7 * group >= 35 {
          return Failure(TooLong);
        }
      }
    }

    /** The length-prefixed read of the status response in `ping_once`. */
    method ReadFrame() returns (r: Result<seq<u8>, Error>)
      modifies this
      ensures match Unframe(old(unread))
              case Success((payload, rest)) => r == Success(payload) && unread == rest
              case Failure(e) => r == Failure(e)
    {
      var length := ReadVarint();
      if length.Failure? {
        return Failure(length.error);
      }
      var n := length.value;
      if !(0 <= n <= MAX_STATUS_LENGTH) {
        return Failure(BadLength(n));
      }
      if |unread| < n {
        unread := [];
        return Failure(EndOfStream);
      }
      r := Success(unread[..n]);
      unread := unread[n..];
    }
  }
}
