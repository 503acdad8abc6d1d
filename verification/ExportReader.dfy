/** Reading an export back under the exporter's bounds, and what that does and does not notice. */
module ExportReader {
  import opened Options
  import opened Text
  import opened JsonText
  import opened Exporter

  datatype ReadResult = Read(records: seq<Object>, truncated: bool) | LineTooLong | InvalidLine

  /** Bytes of a character in UTF-8. */
  function Utf8Size(c: char): nat {
    if (c as int) < 0x80 then 1 else if (c as int) < 0x800 then 2 else if (c as int) < 0x10000 then 3 else 4
  }

  function Bytes(s: string): nat {
    if s == "" then 0 else Utf8Size(s[0]) + Bytes(s[1..])
  }

  /** How many characters lie at or above this code point. */
  ghost function CountFrom(s: string, codePoint: int): nat {
    if s == "" then 0 else (if s[0] as int >= codePoint then 1 else 0) + CountFrom(s[1..], codePoint)
  }

  /** One byte a character, and one more for each of the three limits of UTF-8 that it reaches. */
  lemma {:induction false} BytesMeaning(s: string)
    ensures Bytes(s) == |s| + CountFrom(s, 128) + CountFrom(s, 2048) + CountFrom(s, 65536)
  {
    if s != "" { BytesMeaning(s[1..]); }
  }

  /** The reader allows eight bytes for every character of the string bound. */
  lemma TooLongMeaning(raw: string, maxString: nat)
    ensures TooLong(raw, maxString)
      <==> |raw| + CountFrom(raw, 128) + CountFrom(raw, 2048) + CountFrom(raw, 65536) > 8 * maxString
  {
    BytesMeaning(raw);
  }

  predicate TooLong(raw: string, maxString: nat) { Bytes(raw) > maxString * 8 }

  /** The object on a raw line, which may end in a newline. */
  function ReadLine(raw: string): Option<Object> {
    ReadObject(if raw != "" && raw[|raw| - 1] == '\n' then raw[..|raw| - 1] else raw)
  }

  predicate Readable(raw: string, maxString: nat) { !TooLong(raw, maxString) && ReadLine(raw).Some? }

  /** The first bad one among the first `maxRecords` lines decides; without one, more lines mean truncation. */
  ghost predicate ReadOf(lines: seq<string>, maxRecords: nat, maxString: nat, r: ReadResult) {
    var n := if |lines| <= maxRecords then |lines| else maxRecords;
    match r
    case Read(records, truncated) =>
      && |records| == n && (truncated <==> |lines| > maxRecords)
      && forall k :: 0 <= k < n ==> Readable(lines[k], maxString) && ReadLine(lines[k]) == Some(records[k])
    case LineTooLong => exists k :: 0 <= k < n && FirstBad(lines, maxString, k) && TooLong(lines[k], maxString)
    case InvalidLine => exists k :: 0 <= k < n && FirstBad(lines, maxString, k) && !TooLong(lines[k], maxString)
  }

  ghost predicate FirstBad(lines: seq<string>, maxString: nat, k: nat) {
    k < |lines| && !Readable(lines[k], maxString) && forall j :: 0 <= j < k ==> Readable(lines[j], maxString)
  }

  /** Read the export back; a missing file is the empty list. */
  method ReadRecords(file: Option<string>, maxRecords: nat, maxString: nat) returns (r: ReadResult)
    ensures file.None? ==> r == Read([], false)
    ensures file.Some? ==> ReadOf(RawLines(file.value), maxRecords, maxString, r)
  {
    if file.None? { return Read([], false); }
    var lines := RawLines(file.value);
    var records: seq<Object> := [];
    for i := 0 to |lines|
      invariant i <= maxRecords && |records| == i
      invariant forall k :: 0 <= k < i ==> Readable(lines[k], maxString) && ReadLine(lines[k]) == Some(records[k])
    {
      if i + 1 > maxRecords { return Read(records, true); }
      if TooLong(lines[i], maxString) {
        assert FirstBad(lines, maxString, i);
        return LineTooLong;
      }
      var record := ReadLine(lines[i]);
      if record.None? {
        assert FirstBad(lines, maxString, i);
        return InvalidLine;
      }
      records := records + [record.value];
    }
    return Read(records, false);
  }

  /** A file gives only one result. */
  lemma ReadIsDetermined(lines: seq<string>, maxRecords: nat, maxString: nat, a: ReadResult, b: ReadResult)
    requires ReadOf(lines, maxRecords, maxString, a) && ReadOf(lines, maxRecords, maxString, b)
    ensures a == b
  {
    if a.Read? && b.Read? {
      assert a.records == b.records;
    } else if !a.Read? {
      var k :| 0 <= k < |lines| && FirstBad(lines, maxString, k) && (TooLong(lines[k], maxString) <==> a.LineTooLong?);
    }
  }

  /** Every line is there, fits and reads. */
  ghost predicate WhollyRead(file: string, maxRecords: nat, maxString: nat) {
    |RawLines(file)| <= maxRecords && forall k :: 0 <= k < |RawLines(file)| ==> Readable(RawLines(file)[k], maxString)
  }

  lemma WhollyReadMeans(file: string, maxRecords: nat, maxString: nat, r: ReadResult)
    requires ReadOf(RawLines(file), maxRecords, maxString, r)
    ensures WhollyRead(file, maxRecords, maxString) <==> r.Read? && !r.truncated
  {
  }

  lemma TailIsRead(lines: seq<string>, tail: string, maxRecords: nat, maxString: nat, r: ReadResult)
    requires (forall l :: l in lines ==> '\n' !in l) && '\n' !in tail && tail != "" && ReadObject(tail).None?
    requires |lines| < maxRecords && ReadOf(RawLines(Unlines(lines) + tail), maxRecords, maxString, r)
    ensures !r.Read?
  {
    RawLinesOf(lines, tail);
    TerminateAt(lines + [tail]);
    var raw := RawLines(Unlines(lines) + tail);
    assert raw[|lines|] == tail;
    assert tail[|tail| - 1] in tail;
    assert !Readable(raw[|lines|], maxString);
  }

  /** An export that stops inside a record is refused, unless that record lies beyond the bound. */
  lemma CutRecordIsNoticed(lines: seq<string>, tail: string, rest: string, o: Object, maxRecords: nat, maxString: nat, r: ReadResult)
    requires (forall l :: l in lines ==> '\n' !in l) && |lines| < maxRecords
    requires o != [] && PrintObject(o) == tail + rest && tail != "" && rest != ""
    requires ReadOf(RawLines(Unlines(lines) + tail), maxRecords, maxString, r)
    ensures !r.Read?
  {
    PrefixIsNoObject(o, tail, rest);
    TailIsRead(lines, tail, maxRecords, maxString, r);
  }

  lemma PrefixIsNoObject(o: Object, tail: string, rest: string)
    requires o != [] && PrintObject(o) == tail + rest && rest != ""
    ensures ReadObject(tail).None? && '\n' !in tail
  {
    PrintedObjectReads(o);
    if ReadObject(tail).Some? { LongerIsNoObject(tail, rest); }
    MembersStayOnOneLine(o);
    forall i | 0 <= i < |tail| ensures tail[i] != '\n' {
      assert PrintObject(o)[i] == tail[i];
      assert i > 0 ==> PrintMembers(o)[i] == tail[i];
    }
  }

  // ------------------------------------------------------------ exported files

  function ObjectsOf(records: seq<Record>, maxString: nat): seq<Object> {
    seq(|records|, i requires 0 <= i < |records| => Members(records[i], maxString))
  }

  lemma LineReads(r: Record, maxString: nat)
    ensures ReadObject(Line(r, maxString)) == Some(Members(r, maxString)) && '\n' !in Line(r, maxString)
  {
    PrintedObjectReads(Members(r, maxString));
    MembersStayOnOneLine(Members(r, maxString));
  }

  ghost predicate AllFit(lines: seq<string>, maxString: nat) {
    forall i :: 0 <= i < |lines| ==> !TooLong(lines[i] + ['\n'], maxString)
  }

  ghost predicate LinesFit(records: seq<Record>, maxString: nat) { AllFit(LinesOf(records, maxString), maxString) }

  /** Each of these lines reads to the object beside it. */
  ghost predicate Prints(lines: seq<string>, objects: seq<Object>) {
    |lines| == |objects| && forall i :: 0 <= i < |lines| ==> '\n' !in lines[i] && ReadObject(lines[i]) == Some(objects[i])
  }

  /** The raw lines of printed objects read back to the objects. */
  lemma PrintedLines(lines: seq<string>, objects: seq<Object>)
    requires Prints(lines, objects)
    ensures var raw := RawLines(Unlines(lines));
      |raw| == |lines| && forall i :: 0 <= i < |lines| ==> raw[i] == lines[i] + ['\n'] && ReadLine(raw[i]) == Some(objects[i])
  {
    RawLinesOf(lines, "");
    TerminateAt(lines + [""]);
    assert Unlines(lines) + "" == Unlines(lines);
    forall i | 0 <= i < |lines| ensures ReadLine(lines[i] + ['\n']) == ReadObject(lines[i]) {
      assert (lines[i] + ['\n'])[..|lines[i]|] == lines[i];
    }
  }

  ghost predicate RawFit(raw: seq<string>, maxString: nat) { forall i :: 0 <= i < |raw| ==> !TooLong(raw[i], maxString) }

  /** Lines that all read are returned exactly when they fit; otherwise they are refused. */
  lemma ParsedLinesRead(raw: seq<string>, objects: seq<Object>, maxRecords: nat, maxString: nat, r: ReadResult)
    requires |raw| == |objects| <= maxRecords && forall i :: 0 <= i < |raw| ==> ReadLine(raw[i]) == Some(objects[i])
    ensures ReadOf(raw, maxRecords, maxString, r) <==> r == if RawFit(raw, maxString) then Read(objects, false) else LineTooLong
  {
    var expected := if RawFit(raw, maxString) then Read(objects, false) else LineTooLong;
    if !RawFit(raw, maxString) {
      var k := FirstTooLong(raw, maxString);
      assert FirstBad(raw, maxString, k);
    }
    if ReadOf(raw, maxRecords, maxString, r) { ReadIsDetermined(raw, maxRecords, maxString, r, expected); }
  }

  /** Reading printed objects returns all of them exactly when all lines fit; otherwise the file is refused. */
  lemma PrintedFileReads(lines: seq<string>, objects: seq<Object>, maxRecords: nat, maxString: nat, r: ReadResult)
    requires Prints(lines, objects) && |lines| <= maxRecords
    ensures ReadOf(RawLines(Unlines(lines)), maxRecords, maxString, r)
      <==> r == if AllFit(lines, maxString) then Read(objects, false) else LineTooLong
  {
    PrintedLines(lines, objects);
    ParsedLinesRead(RawLines(Unlines(lines)), objects, maxRecords, maxString, r);
  }

  lemma {:induction false} FirstTooLong(raw: seq<string>, maxString: nat) returns (k: nat)
    requires !RawFit(raw, maxString)
    ensures k < |raw| && TooLong(raw[k], maxString) && RawFit(raw[..k], maxString)
  {
    var n := |raw| - 1;
    if RawFit(raw[..n], maxString) {
      k := n;
      assert forall i :: 0 <= i < n ==> raw[..n][i] == raw[i];
    } else {
      k := FirstTooLong(raw[..n], maxString);
      assert raw[..n][..k] == raw[..k];
    }
  }

  /** `r` is what the reader makes of a file with these records. */
  ghost predicate ReadOfExport(records: seq<Record>, maxRecords: nat, maxString: nat, r: ReadResult) {
    ReadOf(RawLines(FileText(records, maxString)), maxRecords, maxString, r)
  }

  /** Reading an export under the same bounds returns every record written exactly when all lines fit; otherwise it is refused. */
  lemma ExportReadsBack(records: seq<Record>, maxRecords: nat, maxString: nat, r: ReadResult)
    requires |records| <= maxRecords
    ensures ReadOfExport(records, maxRecords, maxString, r)
      <==> r == if LinesFit(records, maxString) then Read(ObjectsOf(records, maxString), false) else LineTooLong
  {
    var lines, objects := LinesOf(records, maxString), ObjectsOf(records, maxString);
    forall i | 0 <= i < |lines| ensures '\n' !in lines[i] && ReadObject(lines[i]) == Some(objects[i]) {
      LineReads(records[i], maxString);
    }
    PrintedFileReads(lines, objects, maxRecords, maxString, r);
  }

  /** The truncation flag says nothing about the exporter: whatever it dropped, the reader reports none. */
  lemma TruncationGoesUnreported(fs: seq<FunctionNode>, maxRecords: nat, maxString: nat, r: ReadResult)
    ensures ReadOfExport(Take(AllRecords(fs), maxRecords), maxRecords, maxString, r) ==>
      && (r.Read? <==> LinesFit(Take(AllRecords(fs), maxRecords), maxString))
      && (r.Read? ==> !r.truncated && r.records == ObjectsOf(Take(AllRecords(fs), maxRecords), maxString))
      && (r.Read? ==> (r.records == ObjectsOf(AllRecords(fs), maxString) <==> |AllRecords(fs)| <= maxRecords))
  {
    ExportReadsBack(Take(AllRecords(fs), maxRecords), maxRecords, maxString, r);
  }

  // ---------------------------------------------------------------- witnesses

  /** The smallest function record; its line stays the same for every bound from 8 on. */
  const PLAIN: Record := FunctionRecord(0, "", "", "", 0, Completed(""))

  function PlainFunctions(n: nat): seq<FunctionNode> { seq(n, _ => FunctionNode(PLAIN, [], [])) }

  lemma {:induction false} PlainRecords(n: nat)
    ensures AllRecords(PlainFunctions(n)) == seq(n, _ => PLAIN)
  {
    if n > 0 {
      PlainRecords(n - 1);
      assert PlainFunctions(n)[..n - 1] == PlainFunctions(n - 1);
      assert FunctionRecords(FunctionNode(PLAIN, [], [])) == [PLAIN];
      assert seq(n, _ => PLAIN) == seq(n - 1, _ => PLAIN) + [PLAIN];
    }
  }

  lemma PlainMembers(maxString: nat)
    requires maxString >= 8
    ensures Members(PLAIN, maxString) == Members(PLAIN, 8)
  {
    assert |Decimal(0)| == 1;
  }

  lemma PlainRoom() returns (maxString: nat)
    ensures maxString >= 1 && !TooLong(Line(PLAIN, maxString) + ['\n'], maxString)
  {
    maxString := 8 + Bytes(Line(PLAIN, 8) + ['\n']);
    PlainMembers(maxString);
  }

  lemma SameLinesFit(lines: seq<string>, line: string, maxString: nat)
    requires (forall l :: l in lines ==> l == line) && !TooLong(line + ['\n'], maxString)
    ensures AllFit(lines, maxString)
  {
    forall i | 0 <= i < |lines| ensures lines[i] == line { assert lines[i] in lines; }
  }

  lemma SameRecords(records: seq<Record>, record: Record, maxString: nat)
    requires forall r :: r in records ==> r == record
    ensures forall l :: l in LinesOf(records, maxString) ==> l == Line(record, maxString)
  {
    var line := Line(record, maxString);
    forall i | 0 <= i < |records| ensures LinesOf(records, maxString)[i] == line { assert records[i] in records; }
  }

  /** For every record bound there is a program, with lines that fit, of which a record is dropped unnoticed. */
  lemma ExportCanDrop(maxRecords: nat) returns (fs: seq<FunctionNode>, maxString: nat)
    ensures maxString >= 1 && |AllRecords(fs)| == maxRecords + 1
    ensures ReadOfExport(Take(AllRecords(fs), maxRecords), maxRecords, maxString,
                         Read(ObjectsOf(Take(AllRecords(fs), maxRecords), maxString), false))
  {
    fs := PlainFunctions(maxRecords + 1);
    maxString := PlainRoom();
    PlainRecords(maxRecords + 1);
    var written := Take(AllRecords(fs), maxRecords);
    DropReads(written, maxRecords, maxString);
  }

  lemma DropReads(written: seq<Record>, maxRecords: nat, maxString: nat)
    requires |written| <= maxRecords && (forall r :: r in written ==> r == PLAIN)
    requires !TooLong(Line(PLAIN, maxString) + ['\n'], maxString)
    ensures ReadOfExport(written, maxRecords, maxString, Read(ObjectsOf(written, maxString), false))
  {
    SameRecords(written, PLAIN, maxString);
    SameLinesFit(LinesOf(written, maxString), Line(PLAIN, maxString), maxString);
    ExportReadsBack(written, maxRecords, maxString, Read(ObjectsOf(written, maxString), false));
  }

  function Controls(n: nat): string { seq(n, _ => 1 as char) }

  /** An instruction whose texts are full of control characters, each printed as six. */
  function Bulky(maxString: nat): Record { InstructionRecord(0, None, Controls(maxString), Controls(maxString)) }

  lemma {:induction false} PrintedControls(n: nat)
    ensures |FlatMap(PrintChar, Controls(n))| == 6 * n
  {
    if n > 0 {
      PrintedControls(n - 1);
      assert Controls(n)[1..] == Controls(n - 1);
    }
  }

  lemma {:induction false} BytesAtLeast(s: string)
    ensures Bytes(s) >= |s|
  {
    if s != "" { BytesAtLeast(s[1..]); }
  }

  lemma FirstMember(o: Object)
    requires o != []
    ensures |PrintMembers(o)| >= |PrintValue(o[0].1)| + |PrintMembers(o[1..])|
  {
  }

  lemma {:induction false} OneValue(o: Object, i: nat)
    requires i < |o|
    ensures |PrintMembers(o)| >= |PrintValue(o[i].1)|
  {
    FirstMember(o);
    if i > 0 { OneValue(o[1..], i - 1); }
  }

  lemma {:induction false} TwoValues(o: Object, i: nat, j: nat)
    requires i < j < |o|
    ensures |PrintMembers(o)| >= |PrintValue(o[i].1)| + |PrintValue(o[j].1)|
  {
    FirstMember(o);
    if i > 0 { TwoValues(o[1..], i - 1, j - 1); } else { OneValue(o[1..], j - 1); }
  }

  /** Texts that are cut and then escaped can fill a line beyond the bound. */
  lemma BulkyIsTooLong(maxString: nat)
    ensures TooLong(Line(Bulky(maxString), maxString) + ['\n'], maxString)
  {
    var o := Members(Bulky(maxString), maxString);
    var line := Line(Bulky(maxString), maxString);
    PrintedControls(maxString);
    assert o[3].1 == StringValue(Controls(maxString)) && o[4].1 == StringValue(Controls(maxString));
    TwoValues(o, 3, 4);
    assert |line| >= 12 * maxString;
    BytesAtLeast(line + ['\n']);
  }

  /** For every string bound the exporter can write a line that the reader refuses under the same bound. */
  lemma ExportCanBeRefused(maxString: nat, maxRecords: nat)
    requires maxRecords >= 1
    ensures ReadOfExport([Bulky(maxString)], maxRecords, maxString, LineTooLong)
  {
    BulkyIsTooLong(maxString);
    assert LinesOf([Bulky(maxString)], maxString)[0] == Line(Bulky(maxString), maxString);
    ExportReadsBack([Bulky(maxString)], maxRecords, maxString, LineTooLong);
  }
}
