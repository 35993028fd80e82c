/** Length-prefixed messages in a byte file, as the trace scripts read and write them. */
module Protolib {
  import opened Wrappers
  import opened Bits
  import opened Varint

  type Message = seq<Byte>

  /* ---- frames as functions of the bytes ---- */

  function Frame(m: Message): (r: seq<Byte>) { Encode(|m|) + m }

  function WriteAll(ms: seq<Message>): (r: seq<Byte>)
  {
    if ms == [] then [] else Frame(ms[0]) + WriteAll(ms[1..])
  }

  /** How many bytes `read(size)` returns when `available` are left; -1 reads all. */
  function ReadCount(size: int, available: nat): (n: nat)
    requires size >= -1
    ensures n <= available
  {
    if 0 <= size <= available then size else available
  }

  /** What `decodeMessage` answers: False, an exception for a size below -1, or a message. */
  datatype Reply = NoMessage | Raised | Got(message: Message)

  /** What one `decodeMessage` does with the bytes ahead: how many it consumes and its answer. */
  datatype Outcome = Outcome(consumed: nat, reply: Reply)

  function ReadFrame(s: seq<Byte>): (r: Outcome)
    ensures r.consumed <= |s|
    ensures r.reply.Got? ==> r.consumed > 0
  {
    match Decode(s)
    case EndOfFile => Outcome(|s|, NoMessage)
    case TooLong => Outcome(10, NoMessage)
    case Value(size, n) =>
      if size == 0 then Outcome(n, NoMessage)
      else if size < -1 then Outcome(n, Raised)
      else
        var k := ReadCount(size, |s| - n);
        Outcome(n + k, Got(s[n..n + k]))
  }

  /** The messages that repeated `decodeMessage` calls give until one returns False or raises. */
  datatype Reading = Reading(messages: seq<Message>, raised: bool)

  function ReadAll(s: seq<Byte>): (r: Reading)
    decreases |s|
  {
    var o := ReadFrame(s);
    match o.reply
    case NoMessage => Reading([], false)
    case Raised => Reading([], true)
    case Got(m) => Prepend([m], ReadAll(s[o.consumed..]))
  }

  function Prepend(ms: seq<Message>, r: Reading): (p: Reading)
  {
    r.(messages := ms + r.messages)
  }

  /* ---- round trips ---- */

  /** A message shorter than 2^63 bytes is read back with nothing lost exactly when it is not empty
      and its length fits in 32 bits. */
  lemma FrameRoundTrip(m: Message, rest: seq<Byte>)
    requires |m| <= MAX_INT64
    ensures ReadFrame(Frame(m) + rest) == Outcome(|Frame(m)|, Got(m)) <==> 0 < |m| < 0x1_0000_0000
  {
    FrameParts(m, rest);
    LengthFits(|m|);
    DecodeEncode(|m|, m + rest);
    var s, n := Frame(m) + rest, |Encode(|m|)|;
    assert Decode(s) == Value(|m| % MASK32, n);
    if 0 < |m| < MASK32 {
      assert ReadFrame(s) == Outcome(n + |m|, Got(s[n..n + |m|]));
    } else if |m| >= MASK32 {
      ShortRead(s, |m| % MASK32, n);
    }
  }

  /** A read gives no more bytes than were asked for. */
  lemma ShortRead(s: seq<Byte>, size: nat, n: nat)
    requires Decode(s) == Value(size, n)
    ensures ReadFrame(s).reply.Got? ==> |ReadFrame(s).reply.message| <= size
  {
  }

  lemma FrameParts(m: Message, rest: seq<Byte>)
    ensures var e, s := Encode(|m|), Frame(m) + rest;
            s == e + (m + rest) && |s| - |e| == |m| + |rest| && s[|e|..|e| + |m|] == m
  {
  }

  lemma EmptyFrameStops(m: Message, rest: seq<Byte>)
    requires |m| == 0
    ensures ReadFrame(Frame(m) + rest) == Outcome(|Frame(m)|, NoMessage)
  {
    LengthFits(0);
    DecodeEncode(0, m + rest);
    assert Frame(m) + rest == Encode(0) + (m + rest);
  }

  /** What is read behind any length: up to 2^63 the low 32 bits of the length count, and fewer bytes
      are read where fewer are left. Beyond, the size is negative, which raises, but -1 reads the rest;
      a length of more than ten bytes gives nothing. */
  lemma FrameExact(v: nat, rest: seq<Byte>)
    ensures var n, size := |Encode(v)|, v % 0x1_0000_0000;
            ReadFrame(Encode(v) + rest) ==
            if n > 10 then Outcome(10, NoMessage)
            else if v < 0x8000_0000_0000_0000 then
              if size == 0 then Outcome(n, NoMessage)
              else if size <= |rest| then Outcome(n + size, Got(rest[..size]))
              else Outcome(n + |rest|, Got(rest))
            else if size == 0xFFFF_FFFF then Outcome(n + |rest|, Got(rest))
            else Outcome(n, Raised)
  {
    DecodeEncode(v, rest);
    var n, size: int := |Encode(v)|, v % 0x1_0000_0000;
    if n <= 10 {
      FrameSized(Encode(v), rest, if v < 0x8000_0000_0000_0000 then size else size - 0x1_0000_0000);
    }
  }

  /** What is read behind a length that decodes to `size`. */
  lemma FrameSized(e: seq<Byte>, rest: seq<Byte>, size: int)
    requires Decode(e + rest) == Value(size, |e|)
    ensures ReadFrame(e + rest) ==
            if size == 0 then Outcome(|e|, NoMessage)
            else if size < -1 then Outcome(|e|, Raised)
            else if 0 < size <= |rest| then Outcome(|e| + size, Got(rest[..size]))
            else Outcome(|e| + |rest|, Got(rest))
  {
    var s := e + rest;
    assert s[|e|..|s|] == rest;
    assert 0 < size <= |rest| ==> s[|e|..|e| + size] == rest[..size];
  }

  /** The messages before the first empty one. */
  function UpToEmpty(ms: seq<Message>): (r: seq<Message>)
  {
    if ms == [] || ms[0] == [] then [] else [ms[0]] + UpToEmpty(ms[1..])
  }

  /** Written messages are read back, in order, up to the first empty one. */
  lemma {:induction false} WriteReadAll(ms: seq<Message>)
    requires forall i :: 0 <= i < |ms| ==> |ms[i]| < MASK32
    ensures ReadAll(WriteAll(ms)) == Reading(UpToEmpty(ms), false)
  {
    if ms == [] {
    } else if ms[0] == [] {
      EmptyFrameStops(ms[0], WriteAll(ms[1..]));
    } else {
      var s := WriteAll(ms);
      FrameRoundTrip(ms[0], WriteAll(ms[1..]));
      assert s[|Frame(ms[0])|..] == WriteAll(ms[1..]);
      WriteReadAll(ms[1..]);
    }
  }

  lemma {:induction false} NoneEmpty(ms: seq<Message>)
    ensures UpToEmpty(ms) == ms <==> forall i :: 0 <= i < |ms| ==> ms[i] != []
  {
    if ms == [] {
    } else {
      NoneEmpty(ms[1..]);
      assert ms == [ms[0]] + ms[1..];
      assert forall i :: 0 < i < |ms| ==> ms[i] == ms[1..][i - 1];
    }
  }

  /** Messages under 2^32 bytes survive writing and reading exactly when none is empty. */
  lemma FileRoundTrip(ms: seq<Message>)
    requires forall i :: 0 <= i < |ms| ==> |ms[i]| < MASK32
    ensures ReadAll(WriteAll(ms)) == Reading(ms, false) <==> forall i :: 0 <= i < |ms| ==> ms[i] != []
  {
    WriteReadAll(ms);
    NoneEmpty(ms);
  }

  lemma ReadAllStep(s: seq<Byte>, before: seq<Message>)
    requires ReadFrame(s).reply.Got?
    ensures Prepend(before, ReadAll(s))
            == Prepend(before + [ReadFrame(s).reply.message], ReadAll(s[ReadFrame(s).consumed..]))
  {
    PrependTwice(before, ReadFrame(s).reply.message, ReadAll(s[ReadFrame(s).consumed..]));
  }

  lemma PrependTwice(before: seq<Message>, m: Message, r: Reading)
    ensures Prepend(before, Prepend([m], r)) == Prepend(before + [m], r)
  {
    assert before + ([m] + r.messages) == before + [m] + r.messages;
  }

  lemma PrependNone(r: Reading)
    ensures Prepend([], r) == r
  {
    assert [] + r.messages == r.messages;
  }

  /** Reading one message leaves the bytes of the ones after it. */
  lemma RestAfterFrame(m: Message, rest: seq<Byte>)
    requires 0 < |m| < MASK32
    ensures ReadFrame(Frame(m) + rest).consumed == |Frame(m)|
    ensures (Frame(m) + rest)[|Frame(m)|..] == rest
  {
    FrameRoundTrip(m, rest);
  }

  lemma {:induction false} WriteAllSnoc(ms: seq<Message>, m: Message)
    ensures WriteAll(ms + [m]) == WriteAll(ms) + Frame(m)
  {
    if ms == [] {
      assert ms + [m] == [m];
      assert [m][1..] == [];
    } else {
      assert (ms + [m])[1..] == ms[1..] + [m];
      WriteAllSnoc(ms[1..], m);
    }
  }

  /* ---- the files of the source ---- */

  /** After `count` bytes, all with the continuation bit, the decoder has read `result`. */
  ghost predicate Continuing(s: seq<Byte>, count: nat, result: nat) {
    && count < 10 && count <= |s| && result == Payload(s[..count])
    && Terminator(s) >= count
  }

  lemma ContinuingEnds(s: seq<Byte>, count: nat, result: nat)
    requires Continuing(s, count, result)
    ensures count == |s| ==> Decode(s) == EndOfFile
  {
  }

  lemma ContinuingNext(s: seq<Byte>, count: nat, result: nat)
    requires Continuing(s, count, result) && count < |s|
    ensures var next := BitOr(result, s[count] % 128 * Pow2(7 * count));
            if s[count] < 128 then Decode(s) == Value(Masked(next), count + 1)
            else if count == 9 then Decode(s) == TooLong
            else Continuing(s, count + 1, next)
  {
    OrNextGroup(s[..count], s[count]);
    assert s[..count + 1] == s[..count] + [s[count]];
  }

  class ByteFile {
    var data: seq<Byte>
    var pos: nat

    constructor (bytes: seq<Byte>)
      ensures data == bytes && pos == 0
    {
      data, pos := bytes, 0;
    }

    ghost predicate Valid()
      reads this
    {
      pos <= |data|
    }

    /** The bytes not yet read. */
    ghost function Ahead(): (r: seq<Byte>)
      requires Valid()
      reads this
    {
      data[pos..]
    }

    method Read(size: int) returns (buf: seq<Byte>)
      requires Valid() && size >= -1
      modifies this`pos
      ensures Valid()
      ensures buf == old(Ahead())[..ReadCount(size, |old(Ahead())|)]
      ensures pos == old(pos) + |buf|
    {
      var n := ReadCount(size, |data| - pos);
      buf := data[pos..pos + n];
      pos := pos + n;
    }

    method Write(bytes: seq<Byte>)
      modifies this`data
      ensures data == old(data) + bytes
    {
      data := data + bytes;
    }

    /** Reads a varint byte by byte; it never reads more than ten bytes. */
    method DecodeVarint32() returns (r: Decoded)
      requires Valid()
      modifies this`pos
      ensures Valid() && r == Decode(old(Ahead()))
      ensures old(pos) <= pos <= old(pos) + 10
      ensures r.Value? ==> pos == old(pos) + r.length
      ensures r.EndOfFile? ==> pos == |data|
      ensures r.TooLong? ==> pos == old(pos) + 10
    {
      ghost var s := Ahead();
      var result, shift, count := 0, 0, 0;
      while true
        invariant pos == old(pos) + count && shift == 7 * count && Continuing(s, count, result)
        decreases 10 - count
      {
        var c := Read(1);
        ContinuingEnds(s, count, result);
        if |c| == 0 { return EndOfFile; }
        var b := c[0];
        assert b == s[count];
        ContinuingNext(s, count, result);
        result := BitOr(result, b % 128 * Pow2(shift));
        count := count + 1;
        if b < 128 {
          return Value(Masked(result), count);
        }
        shift := shift + 7;
        if shift >= 64 { return TooLong; }
      }
    }

    method DecodeMessage() returns (r: Reply)
      requires Valid()
      modifies this`pos
      ensures Valid() && r == ReadFrame(old(Ahead())).reply
      ensures Ahead() == old(Ahead())[ReadFrame(old(Ahead())).consumed..]
    {
      ghost var s := Ahead();
      var d := DecodeVarint32();
      if !d.Value? || d.value == 0 { return NoMessage; }
      if d.value < -1 { return Raised; }
      assert Ahead() == s[d.length..];
      var buf := Read(d.value);
      assert buf == s[d.length..d.length + |buf|];
      r := Got(buf);
    }

    method EncodeVarint32(v: nat)
      modifies this`data
      ensures data == old(data) + Encode(v)
    {
      var bits: nat, value: nat := v % 128, v / 128;
      while value != 0
        invariant data + (if value == 0 then [bits] else [128 + bits] + Encode(value)) == old(data) + Encode(v)
        invariant bits < 128
        decreases value
      {
        Write([128 + bits]);
        bits, value := value % 128, value / 128;
      }
      Write([bits]);
    }

    method EncodeMessage(m: Message)
      modifies this`data
      ensures data == old(data) + Frame(m)
    {
      EncodeVarint32(|m|);
      Write(m);
    }

    /** Reads messages until none is left or a call raises. */
    method DecodeMessages() returns (r: Reading)
      requires Valid()
      modifies this`pos
      ensures Valid() && r == ReadAll(old(Ahead()))
    {
      var ms: seq<Message> := [];
      ghost var all, s := ReadAll(Ahead()), Ahead();
      PrependNone(all);
      var m := DecodeMessage();
      while m.Got?
        invariant Valid()
        invariant m == ReadFrame(s).reply && Ahead() == s[ReadFrame(s).consumed..]
        invariant all == Prepend(ms, ReadAll(s))
        decreases |s|
      {
        ReadAllStep(s, ms);
        ms := ms + [m.message];
        s := Ahead();
        m := DecodeMessage();
      }
      assert ms + [] == ms;
      r := Reading(ms, m.Raised?);
    }

    method EncodeMessages(ms: seq<Message>)
      modifies this`data
      ensures data == old(data) + WriteAll(ms)
    {
      for i := 0 to |ms|
        invariant data == old(data) + WriteAll(ms[..i])
      {
        EncodeMessage(ms[i]);
        assert ms[..i + 1] == ms[..i] + [ms[i]];
        WriteAllSnoc(ms[..i], ms[i]);
      }
      assert ms[..|ms|] == ms;
    }
  }
}
