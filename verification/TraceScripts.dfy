/**
 The two trace scripts over whole files: one turns ASCII records into length-prefixed messages,
 the other turns the messages back into ASCII. Serialising a record and parsing a message, which
 may fail, are parameters.
 */
module TraceScripts {
  import opened Wrappers
  import opened Text
  import opened Varint
  import opened Protolib
  import opened InstDepText

  /** The magic number "gem5". */
  const MAGIC: seq<Byte> := [103, 101, 109, 53]

  function Mapped<A, B>(f: A -> B, xs: seq<A>): (r: seq<B>)
    ensures |r| == |xs| && forall i :: 0 <= i < |xs| ==> r[i] == f(xs[i])
  {
    seq(|xs|, i requires 0 <= i < |xs| => f(xs[i]))
  }

  /** The file written for an ASCII trace, if every line parses. */
  function EncodeTrace(ser: Record -> Message, header: Message, text: string): (r: Option<seq<Byte>>)
  {
    var rs :- ParseLines(Lines(text));
    Some(MAGIC + Frame(header) + WriteAll(Mapped(ser, rs)))
  }

  /** The records of the messages up to the first that does not parse. */
  function Parsed(des: Message -> Option<Record>, ms: seq<Message>): (rs: seq<Record>)
    ensures |rs| <= |ms|
  {
    if ms == [] || des(ms[0]).None? then [] else [des(ms[0]).value] + Parsed(des, ms[1..])
  }

  /** What a run of the decoding script writes, and whether it ends without an error. */
  datatype Decoding = Decoding(text: string, ok: bool)

  /** The ASCII trace written for a file. The script ends with an error if the file does not start
      with the magic number, or at a message that cannot be read or does not parse. */
  function DecodeTrace(des: Message -> Option<Record>, isHeader: Message -> bool, bytes: seq<Byte>): (r: Decoding)
  {
    if |bytes| < 4 || bytes[..4] != MAGIC then Decoding("", false)
    else
      var rest := bytes[4..];
      var header := ReadFrame(rest);
      if header.reply.Raised? || (header.reply.Got? && !isHeader(header.reply.message)) then Decoding("", false)
      else
        var r := ReadAll(rest[header.consumed..]);
        var rs := Parsed(des, r.messages);
        Decoding(PrintAll(rs), !r.raised && |rs| == |r.messages|)
  }

  /** Every file that is written starts with the four letters "gem5". */
  lemma StartsWithMagic(ser: Record -> Message, header: Message, text: string)
    requires EncodeTrace(ser, header, text).Some?
    ensures var bytes := EncodeTrace(ser, header, text).value;
            && |bytes| >= 4
            && bytes[..4] == ['g' as int, 'e' as int, 'm' as int, '5' as int]
  {
    var rs := ParseLines(Lines(text)).value;
    var bytes := EncodeTrace(ser, header, text).value;
    assert bytes == MAGIC + (Frame(header) + WriteAll(Mapped(ser, rs)));
    assert bytes[..4] == MAGIC;
  }

  /** Nothing is printed of a file that does not. */
  lemma OnlyWithMagic(des: Message -> Option<Record>, isHeader: Message -> bool, bytes: seq<Byte>)
    requires |bytes| < 4 || bytes[..4] != ['g' as int, 'e' as int, 'm' as int, '5' as int]
    ensures DecodeTrace(des, isHeader, bytes) == Decoding("", false)
  {
    assert MAGIC == ['g' as int, 'e' as int, 'm' as int, '5' as int];
  }

  /** Reading the file of some messages prints the records of those messages, up to the first that
      does not parse. */
  lemma {:induction false} DecodeWritten(
      des: Message -> Option<Record>, isHeader: Message -> bool, header: Message, ms: seq<Message>)
    requires 0 < |header| < MASK32 && isHeader(header)
    requires forall i :: 0 <= i < |ms| ==> 0 < |ms[i]| < MASK32
    ensures DecodeTrace(des, isHeader, MAGIC + Frame(header) + WriteAll(ms))
            == Decoding(PrintAll(Parsed(des, ms)), |Parsed(des, ms)| == |ms|)
  {
    var body := Frame(header) + WriteAll(ms);
    var bytes := MAGIC + Frame(header) + WriteAll(ms);
    assert bytes == MAGIC + body;
    assert bytes[..4] == MAGIC && bytes[4..] == body;
    RestAfterFrame(header, WriteAll(ms));
    FrameRoundTrip(header, WriteAll(ms));
    FileRoundTrip(ms);
  }

  /** A header that does not parse ends the script with nothing printed. */
  lemma BadHeader(des: Message -> Option<Record>, isHeader: Message -> bool, header: Message, rest: seq<Byte>)
    requires 0 < |header| < 0x1_0000_0000 && !isHeader(header)
    ensures DecodeTrace(des, isHeader, MAGIC + Frame(header) + rest) == Decoding("", false)
  {
    var bytes := MAGIC + Frame(header) + rest;
    assert bytes == MAGIC + (Frame(header) + rest);
    assert bytes[..4] == MAGIC && bytes[4..] == Frame(header) + rest;
    FrameRoundTrip(header, rest);
  }

  /** An empty header is passed over. */
  lemma {:induction false} EmptyHeaderPassed(
      des: Message -> Option<Record>, isHeader: Message -> bool, header: Message, ms: seq<Message>)
    requires |header| == 0 && forall i :: 0 <= i < |ms| ==> 0 < |ms[i]| < 0x1_0000_0000
    ensures DecodeTrace(des, isHeader, MAGIC + Frame(header) + WriteAll(ms))
            == Decoding(PrintAll(Parsed(des, ms)), |Parsed(des, ms)| == |ms|)
  {
    var body := Frame(header) + WriteAll(ms);
    var bytes := MAGIC + Frame(header) + WriteAll(ms);
    assert bytes == MAGIC + body;
    assert bytes[..4] == MAGIC && bytes[4..] == body;
    EmptyFrameStops(header, WriteAll(ms));
    assert body[|Frame(header)|..] == WriteAll(ms);
    FileRoundTrip(ms);
  }

  lemma {:induction false} ParsedAll(des: Message -> Option<Record>, ms: seq<Message>, rs: seq<Record>)
    requires |ms| == |rs| && forall i :: 0 <= i < |ms| ==> des(ms[i]) == Some(rs[i])
    ensures Parsed(des, ms) == rs
  {
    if ms == [] {
    } else {
      ParsedAll(des, ms[1..], rs[1..]);
      assert rs == [rs[0]] + rs[1..];
    }
  }

  /** Serialising undoes itself on `r` and gives a message that can be framed. */
  ghost predicate Serialisable(ser: Record -> Message, des: Message -> Option<Record>, r: Record) {
    des(ser(r)) == Some(r) && 0 < |ser(r)| < MASK32
  }

  /** ASCII to messages and back is the identity on every text that is a printed trace. */
  lemma {:induction false} AsciiRoundTrip(
      ser: Record -> Message, des: Message -> Option<Record>, isHeader: Message -> bool, header: Message,
      rs: seq<Record>)
    requires 0 < |header| < MASK32 && isHeader(header)
    requires forall i :: 0 <= i < |rs| ==> InRange(rs[i]) && Printable(rs[i])
    requires forall i :: 0 <= i < |rs| ==> Serialisable(ser, des, Normalized(rs[i]))
    ensures EncodeTrace(ser, header, PrintAll(rs)).Some?
    ensures DecodeTrace(des, isHeader, EncodeTrace(ser, header, PrintAll(rs)).value)
            == Decoding(PrintAll(rs), true)
  {
    TextRoundTrip(rs);
    var ns := NormalizedAll(rs);
    DecodeWritten(des, isHeader, header, Mapped(ser, ns));
    ParsedAll(des, Mapped(ser, ns), ns);
    NormalizedPrintsSameAll(rs);
  }

  /* ---- the scripts ---- */

  lemma {:induction false} ParsedPrefix(des: Message -> Option<Record>, ms: seq<Message>, i: nat)
    requires i < |ms| && |Parsed(des, ms[..i])| == i
    ensures var r := Parsed(des, ms[..i]);
            if des(ms[i]).Some? then Parsed(des, ms[..i + 1]) == r + [des(ms[i]).value]
            else Parsed(des, ms) == r
    decreases i
  {
    if i == 0 {
      assert ms[..1][1..] == ms[..0];
    } else {
      assert ms[..i][1..] == ms[1..][..i - 1] && ms[..i + 1][1..] == ms[1..][..i];
      ParsedPrefix(des, ms[1..], i - 1);
    }
  }

  /** Prints the record of each message on a line, up to the first that does not parse. */
  method PrintMessages(des: Message -> Option<Record>, ms: seq<Message>) returns (text: string, ok: bool)
    ensures text == PrintAll(Parsed(des, ms)) && (ok <==> |Parsed(des, ms)| == |ms|)
  {
    text := "";
    for i := 0 to |ms|
      invariant |Parsed(des, ms[..i])| == i && text == PrintAll(Parsed(des, ms[..i]))
    {
      ParsedPrefix(des, ms, i);
      var rec := des(ms[i]);
      if rec.None? { return text, false; }
      PrintAllSnoc(Parsed(des, ms[..i]), rec.value);
      var line := PrintRecord(rec.value);
      text := text + line;
    }
    assert ms[..|ms|] == ms;
    ok := true;
  }

  lemma PrintAllSnoc(rs: seq<Record>, r: Record)
    ensures PrintAll(rs + [r]) == PrintAll(rs) + (Line(r) + "\n")
  {
    assert LineAll(rs + [r]) == LineAll(rs) + [Line(r)];
    UnlinesSnoc(LineAll(rs), Line(r));
    assert Unlines(LineAll(rs)) + Line(r) + "\n" == Unlines(LineAll(rs)) + (Line(r) + "\n");
  }

  /** The decoding script: reads messages until none is left and prints each record. */
  method DecodeScript(des: Message -> Option<Record>, isHeader: Message -> bool, bytes: seq<Byte>)
      returns (r: Decoding)
    ensures r == DecodeTrace(des, isHeader, bytes)
  {
    var file := new ByteFile(bytes);
    var magic := file.Read(4);
    if magic != MAGIC { return Decoding("", false); }
    ghost var rest := bytes[4..];
    assert file.Ahead() == rest;
    var header := file.DecodeMessage();
    if header.Raised? || (header.Got? && !isHeader(header.message)) { return Decoding("", false); }
    assert file.Ahead() == rest[ReadFrame(rest).consumed..];
    var reading := file.DecodeMessages();
    var text, ok := PrintMessages(des, reading.messages);
    r := Decoding(text, !reading.raised && ok);
  }

  lemma WriteNext(ser: Record -> Message, start: seq<Byte>, rs: seq<Record>, r: Record)
    ensures start + WriteAll(Mapped(ser, rs)) + Frame(ser(r)) == start + WriteAll(Mapped(ser, rs + [r]))
  {
    WriteAllSnoc(Mapped(ser, rs), ser(r));
    assert Mapped(ser, rs + [r]) == Mapped(ser, rs) + [ser(r)];
  }

  /** Writes the record of each line as a message; a line that does not parse ends the script. */
  method WriteLines(ser: Record -> Message, file: ByteFile, lines: seq<string>) returns (ok: bool)
    modifies file
    ensures ok <==> ParseLines(lines).Some?
    ensures ok ==> file.data == old(file.data) + WriteAll(Mapped(ser, ParseLines(lines).value))
  {
    ghost var start := file.data;
    ghost var rs: seq<Record> := [];
    assert start + WriteAll(Mapped(ser, rs)) == start;
    for i := 0 to |lines|
      invariant Each(PARSE, lines[..i]) == Some(rs)
      invariant file.data == start + WriteAll(Mapped(ser, rs))
    {
      var rec := ParseLine(lines[i]);
      if rec.None? {
        EachNone(PARSE, lines, i);
        return false;
      }
      file.EncodeMessage(ser(rec.value));
      WriteNext(ser, start, rs, rec.value);
      EachNext(PARSE, lines, i, rs, rec.value);
      rs := rs + [rec.value];
    }
    assert lines[..|lines|] == lines;
    ok := true;
  }

  /** The encoding script: the magic number, the header, and a message for each line. */
  method EncodeScript(ser: Record -> Message, header: Message, text: string) returns (r: Option<seq<Byte>>)
    ensures r == EncodeTrace(ser, header, text)
  {
    var file := new ByteFile(MAGIC);
    file.EncodeMessage(header);
    var ok := WriteLines(ser, file, Lines(text));
    r := if ok then Some(file.data) else None;
  }
}
