/** JSON string literals and flat objects: the exporter's printer and a reader following RFC 8259. */
module JsonText {
  import opened Options
  import opened Text

  /** One character of a printed string literal. */
  function PrintChar(c: char): string {
    if c == '\\' then "\\\\"
    else if c == '"' then "\\\""
    else if c == '\n' then "\\n"
    else if c == '\r' then "\\r"
    else if c == '\t' then "\\t"
    else if c as int < 0x20 then ['\\', 'u', '0', '0', HexDigit(c as int / 16), HexDigit(c as int % 16)]
    else [c]
  }

  function Quoted(s: string): string { "\"" + FlatMap(PrintChar, s) + "\"" }

  function Cut(s: string, maxString: nat): string {
    if |s| > maxString then s[..maxString] else s
  }

  /** Cutting keeps a beginning of the bounded length, and a shorter text whole. */
  lemma CutMeaning(s: string, maxString: nat)
    ensures Cut(s, maxString) <= s && |Cut(s, maxString)| <= maxString
    ensures |s| <= maxString ==> Cut(s, maxString) == s
    ensures |s| >= maxString ==> |Cut(s, maxString)| == maxString
  {
  }

  /** The string printer: cut, then escape character by character into a buffer. */
  method PrintString(value: Option<string>, maxString: nat) returns (r: string)
    ensures r == if value.None? then "null" else Quoted(Cut(value.value, maxString))
  {
    if value.None? { return "null"; }
    var text := value.value;
    if |text| > maxString { text := text[..maxString]; }
    r := "\"";
    for i := 0 to |text|
      invariant r == "\"" + FlatMap(PrintChar, text[..i])
    {
      FlatMapNext(PrintChar, text, i);
      r := r + PrintChar(text[i]);
    }
    assert text[..|text|] == text;
    r := r + "\"";
  }

  // ---------------------------------------------- reading (RFC 8259, section 7)

  function HexValue(c: char): Option<nat> {
    if '0' <= c <= '9' then Some(c as int - '0' as int)
    else if 'a' <= c <= 'f' then Some(c as int - 'a' as int + 10)
    else if 'A' <= c <= 'F' then Some(c as int - 'A' as int + 10)
    else None
  }

  function FourHex(s: string): Option<nat>
    requires |s| == 4
  {
    var a, b, c, d := HexValue(s[0]), HexValue(s[1]), HexValue(s[2]), HexValue(s[3]);
    if a.Some? && b.Some? && c.Some? && d.Some?
    then Some(a.value * 0x1000 + b.value * 0x100 + c.value * 16 + d.value) else None
  }

  function ShortEscape(c: char): Option<char> {
    match c
    case '"' => Some('"') case '\\' => Some('\\') case '/' => Some('/')
    case 'b' => Some(8 as char) case 'f' => Some(12 as char)
    case 'n' => Some('\n') case 'r' => Some('\r') case 't' => Some('\t')
    case _ => None
  }

  function Prepend(c: char, r: Option<(string, string)>): Option<(string, string)> {
    if r.None? then None else Some(([c] + r.value.0, r.value.1))
  }

  /** The characters up to the closing quote, and what follows it. */
  function ReadBody(s: string): (r: Option<(string, string)>)
    ensures r.Some? ==> |r.value.1| < |s|
  {
    if s == "" then None
    else if s[0] == '"' then Some(("", s[1..]))
    else if s[0] == '\\' then
      if |s| >= 6 && s[1] == 'u' then
        var code := FourHex(s[2..6]);
        if code.None? || 0xD800 <= code.value < 0xE000 || code.value >= 0x10000 then None
        else Prepend(code.value as char, ReadBody(s[6..]))
      else if |s| >= 2 && ShortEscape(s[1]).Some? then Prepend(ShortEscape(s[1]).value, ReadBody(s[2..]))
      else None
    else if s[0] as int < 0x20 then None
    else Prepend(s[0], ReadBody(s[1..]))
  }

  function ReadString(s: string): (r: Option<(string, string)>)
    ensures r.Some? ==> |r.value.1| < |s|
  {
    if s != "" && s[0] == '"' then ReadBody(s[1..]) else None
  }

  lemma PrintedCharReads(c: char, rest: string)
    ensures ReadBody(PrintChar(c) + rest) == Prepend(c, ReadBody(rest))
  {
    var p := PrintChar(c);
    var s := p + rest;
    if c as int < 0x20 && c != '\n' && c != '\r' && c != '\t' {
      ControlHex(c);
      assert s[2..6] == p[2..6] && s[6..] == rest;
    } else if p == [c] {
      assert s[1..] == rest;
    } else {
      assert s[2..] == rest;
    }
  }

  lemma ControlHex(c: char)
    requires c as int < 0x20
    ensures FourHex(['0', '0', HexDigit(c as int / 16), HexDigit(c as int % 16)]) == Some(c as int)
  {
    assert HexValue(HexDigit(c as int / 16)) == Some(c as int / 16);
    assert HexValue(HexDigit(c as int % 16)) == Some(c as int % 16);
  }

  lemma {:induction false} PrintedBodyReads(s: string, rest: string)
    ensures ReadBody(FlatMap(PrintChar, s) + "\"" + rest) == Some((s, rest))
  {
    if s == "" {
      assert "" + "\"" + rest == "\"" + rest;
      assert ("\"" + rest)[1..] == rest;
    } else {
      PrintedBodyReads(s[1..], rest);
      PrintedCharReads(s[0], FlatMap(PrintChar, s[1..]) + "\"" + rest);
      assert FlatMap(PrintChar, s) + "\"" + rest == PrintChar(s[0]) + (FlatMap(PrintChar, s[1..]) + "\"" + rest);
      assert s == [s[0]] + s[1..];
    }
  }

  /** A printed literal reads back to the printed string, whatever follows it. */
  lemma QuotedReads(s: string, rest: string)
    ensures ReadString(Quoted(s) + rest) == Some((s, rest))
  {
    PrintedBodyReads(s, rest);
    assert (Quoted(s) + rest)[1..] == FlatMap(PrintChar, s) + "\"" + rest;
  }

  /** No control character survives printing, so a literal never breaks a line. */
  lemma {:induction false} PrintedHasNoControls(s: string)
    ensures forall i :: 0 <= i < |FlatMap(PrintChar, s)| ==> FlatMap(PrintChar, s)[i] as int >= 0x20
  {
    if s != "" { PrintedHasNoControls(s[1..]); }
  }

  // ------------------------------------------------------------ flat objects

  datatype Value = NullValue | StringValue(text: string) | NumberValue(number: nat)

  type Object = seq<(string, Value)>

  function PrintValue(v: Value): string {
    match v
    case NullValue => "null"
    case StringValue(text) => Quoted(text)
    case NumberValue(n) => Decimal(n)
  }

  function PrintMembers(o: Object): string {
    if o == [] then "}"
    else "," + Quoted(o[0].0) + ":" + PrintValue(o[0].1) + PrintMembers(o[1..])
  }

  function PrintObject(o: Object): string
    requires o != []
  {
    "{" + PrintMembers(o)[1..]
  }

  function Digits(s: string): (n: nat)
    ensures n <= |s| && forall i :: 0 <= i < n ==> IsDigit(s[i])
  {
    if s != "" && IsDigit(s[0]) then 1 + Digits(s[1..]) else 0
  }

  function ReadValue(s: string): (r: Option<(Value, string)>)
    ensures r.Some? ==> |r.value.1| < |s|
  {
    if s == "" then None
    else if s[0] == '"' then
      var r := ReadString(s);
      if r.None? then None else Some((StringValue(r.value.0), r.value.1))
    else if "null" <= s then Some((NullValue, s[4..]))
    else if IsDigit(s[0]) then Some((NumberValue(ParseDecimal(s[..Digits(s)])), s[Digits(s)..]))
    else None
  }

  /** Members up to the closing brace; nothing may follow it. */
  function ReadMembers(s: string): Option<Object>
    decreases |s|
  {
    if s == "}" then Some([])
    else if s == "" || s[0] != ',' then None
    else
      var key := ReadString(s[1..]);
      if key.None? || key.value.1 == "" || key.value.1[0] != ':' then None
      else
        var value := ReadValue(key.value.1[1..]);
        if value.None? then None
        else
          var rest := ReadMembers(value.value.1);
          if rest.None? then None else Some([(key.value.0, value.value.0)] + rest.value)
  }

  function ReadObject(s: string): Option<Object> {
    if s == "" || s[0] != '{' then None else ReadMembers("," + s[1..])
  }

  lemma {:induction false} DigitsStop(number: string, rest: string)
    requires (forall c :: c in number ==> IsDigit(c)) && (rest == "" || !IsDigit(rest[0]))
    ensures Digits(number + rest) == |number|
  {
    if number == "" {
      assert number + rest == rest;
    } else {
      assert number == [number[0]] + number[1..];
      DigitsStop(number[1..], rest);
      assert (number + rest)[1..] == number[1..] + rest;
    }
  }

  lemma PrintedValueReads(v: Value, rest: string)
    requires rest == "" || !IsDigit(rest[0])
    ensures ReadValue(PrintValue(v) + rest) == Some((v, rest))
  {
    match v
    case NullValue => assert ("null" + rest)[4..] == rest;
    case StringValue(text) => QuotedReads(text, rest);
    case NumberValue(n) =>
      var d := Decimal(n);
      assert IsDigit(d[0]) by { assert d[0] in d; }
      DigitsStop(d, rest);
      ParseDecimalOf(n);
      assert (d + rest)[..|d|] == d && (d + rest)[|d|..] == rest;
  }

  lemma OneMemberReads(body: string, key: string, tail: string, v: Value, rest: string)
    requires ReadString(body) == Some((key, ":" + tail)) && ReadValue(tail) == Some((v, rest))
    ensures ReadMembers("," + body) == if ReadMembers(rest).None? then None else Some([(key, v)] + ReadMembers(rest).value)
  {
    assert ("," + body)[1..] == body;
    assert (":" + tail)[1..] == tail;
  }

  lemma MemberReads(key: string, v: Value, rest: string)
    requires rest == "" || !IsDigit(rest[0])
    ensures ReadMembers("," + Quoted(key) + ":" + PrintValue(v) + rest)
      == if ReadMembers(rest).None? then None else Some([(key, v)] + ReadMembers(rest).value)
  {
    var q, tail := Quoted(key), PrintValue(v) + rest;
    QuotedReads(key, ":" + tail);
    PrintedValueReads(v, rest);
    OneMemberReads(q + (":" + tail), key, tail, v, rest);
    Regroup(q, PrintValue(v), rest);
  }

  lemma Regroup(q: string, value: string, rest: string)
    ensures "," + q + ":" + value + rest == "," + (q + (":" + (value + rest)))
  {
  }

  lemma {:induction false} PrintedMembersRead(o: Object)
    ensures ReadMembers(PrintMembers(o)) == Some(o)
    ensures PrintMembers(o) != "" && !IsDigit(PrintMembers(o)[0])
  {
    if o != [] {
      PrintedMembersRead(o[1..]);
      MemberReads(o[0].0, o[0].1, PrintMembers(o[1..]));
      assert o == [(o[0].0, o[0].1)] + o[1..];
    }
  }

  /** A printed flat object reads back to itself. */
  lemma PrintedObjectReads(o: Object)
    requires o != []
    ensures ReadObject(PrintObject(o)) == Some(o)
  {
    PrintedMembersRead(o);
    assert "," + PrintObject(o)[1..] == PrintMembers(o);
  }

  // ------------------------------------------------------- cut objects do not read

  /** What follows a four-digit escape does not matter to reading it. */
  lemma UnicodeStep(s: string, x: string)
    requires |s| >= 6 && s[0] == '\\' && s[1] == 'u' && FourHex(s[2..6]).Some?
    requires var code := FourHex(s[2..6]).value; code < 0x10000 && !(0xD800 <= code < 0xE000)
    ensures ReadBody(s + x) == Prepend(FourHex(s[2..6]).value as char, ReadBody(s[6..] + x))
  {
    var t := s + x;
    assert t[2..6] == s[2..6] && t[6..] == s[6..] + x;
  }

  lemma {:induction false} LongerBody(s: string, x: string)
    requires ReadBody(s).Some?
    ensures ReadBody(s + x) == Some((ReadBody(s).value.0, ReadBody(s).value.1 + x))
  {
    var t := s + x;
    if s[0] == '"' {
      assert t[1..] == s[1..] + x;
    } else if s[0] == '\\' {
      if |s| >= 6 && s[1] == 'u' {
        LongerBody(s[6..], x);
        UnicodeStep(s, x);
      } else {
        assert t[1] == s[1] != 'u';
        LongerBody(s[2..], x);
        assert t[2..] == s[2..] + x;
      }
    } else {
      LongerBody(s[1..], x);
      assert t[1..] == s[1..] + x;
    }
  }

  lemma LongerString(s: string, x: string)
    requires ReadString(s).Some?
    ensures ReadString(s + x) == Some((ReadString(s).value.0, ReadString(s).value.1 + x))
  {
    LongerBody(s[1..], x);
    assert (s + x)[1..] == s[1..] + x;
  }

  lemma {:induction false} LongerDigits(s: string, x: string)
    requires Digits(s) < |s|
    ensures Digits(s + x) == Digits(s)
  {
    if s != "" && IsDigit(s[0]) {
      LongerDigits(s[1..], x);
      assert (s + x)[1..] == s[1..] + x;
    }
  }

  lemma LongerValue(s: string, x: string)
    requires ReadValue(s).Some? && ReadValue(s).value.1 != ""
    ensures ReadValue(s + x) == Some((ReadValue(s).value.0, ReadValue(s).value.1 + x))
  {
    if s[0] == '"' {
      LongerString(s, x);
    } else if "null" <= s {
      assert (s + x)[..4] == s[..4] && (s + x)[4..] == s[4..] + x;
    } else {
      LongerDigits(s, x);
      var n := Digits(s);
      assert (s + x)[..n] == s[..n] && (s + x)[n..] == s[n..] + x;
    }
  }

  lemma {:induction false} LongerMembers(s: string, x: string)
    requires ReadMembers(s).Some? && x != ""
    ensures ReadMembers(s + x).None?
    decreases |s|
  {
    if s != "}" {
      var key := ReadString(s[1..]);
      var value := ReadValue(key.value.1[1..]);
      LongerString(s[1..], x);
      assert (s + x)[1..] == s[1..] + x;
      assert (key.value.1 + x)[1..] == key.value.1[1..] + x;
      LongerValue(key.value.1[1..], x);
      LongerMembers(value.value.1, x);
    }
  }

  /** Nothing can follow a complete object, so a proper beginning of one is never an object. */
  lemma LongerIsNoObject(s: string, x: string)
    requires ReadObject(s).Some? && x != ""
    ensures ReadObject(s + x).None?
  {
    LongerMembers("," + s[1..], x);
    assert "," + (s + x)[1..] == ("," + s[1..]) + x;
  }

  lemma {:induction false} MembersStayOnOneLine(o: Object)
    ensures '\n' !in PrintMembers(o)
  {
    if o != [] {
      MembersStayOnOneLine(o[1..]);
      PrintedHasNoControls(o[0].0);
      match o[0].1 {
        case NullValue =>
        case StringValue(text) => PrintedHasNoControls(text);
        case NumberValue(n) => assert forall c :: c in Decimal(n) ==> IsDigit(c);
      }
    }
  }
}
