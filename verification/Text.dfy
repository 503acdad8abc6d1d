/** Separator-joined text, newline-terminated lines and decimal numerals with their readers; white space. */
module Text {

  function Join(parts: seq<string>, sep: char): string {
    if parts == [] then "" else if |parts| == 1 then parts[0]
    else parts[0] + [sep] + Join(parts[1..], sep)
  }

  function Split(text: string, sep: char): (r: seq<string>)
    ensures r != []
  {
    if text == "" then [""]
    else
      var rest := Split(text[1..], sep);
      if text[0] == sep then [""] + rest else [[text[0]] + rest[0]] + rest[1..]
  }

  lemma {:induction false} SplitPrefix(part: string, rest: string, sep: char)
    requires sep !in part
    ensures Split(part + [sep] + rest, sep) == [part] + Split(rest, sep)
  {
    if part == "" {
      assert part + [sep] + rest == [sep] + rest;
      assert ([sep] + rest)[1..] == rest;
    } else {
      SplitPrefix(part[1..], rest, sep);
      assert (part + [sep] + rest)[1..] == part[1..] + [sep] + rest;
      assert part == [part[0]] + part[1..];
    }
  }

  lemma {:induction false} SplitPlain(part: string, sep: char)
    requires sep !in part
    ensures Split(part, sep) == [part]
  {
    if part != "" {
      SplitPlain(part[1..], sep);
      assert part == [part[0]] + part[1..];
    }
  }

  /** Joining separator-free parts loses nothing. */
  lemma {:induction false} SplitJoin(parts: seq<string>, sep: char)
    requires parts != [] && forall p :: p in parts ==> sep !in p
    ensures Split(Join(parts, sep), sep) == parts
  {
    if |parts| == 1 {
      SplitPlain(parts[0], sep);
    } else {
      SplitJoin(parts[1..], sep);
      SplitPrefix(parts[0], Join(parts[1..], sep), sep);
      assert parts == [parts[0]] + parts[1..];
    }
  }

  lemma {:induction false} JoinAvoids(parts: seq<string>, sep: char, c: char)
    requires c != sep && forall p :: p in parts ==> c !in p
    ensures c !in Join(parts, sep)
  {
    if |parts| > 1 { JoinAvoids(parts[1..], sep, c); }
  }

  /** Every line followed by a newline. */
  function Unlines(lines: seq<string>): string {
    if lines == [] then "" else lines[0] + ['\n'] + Unlines(lines[1..])
  }

  /** The newline-terminated lines of a text; an unterminated tail is dropped. */
  function Lines(text: string): seq<string> {
    var parts := Split(text, '\n');
    parts[..|parts| - 1]
  }

  lemma {:induction false} LinesUnlines(lines: seq<string>)
    requires forall l :: l in lines ==> '\n' !in l
    ensures Lines(Unlines(lines)) == lines
  {
    if lines != [] {
      LinesUnlines(lines[1..]);
      SplitPrefix(lines[0], Unlines(lines[1..]), '\n');
      assert lines == [lines[0]] + lines[1..];
    }
  }

  /** All parts but the last are terminated lines; the last is a line only if there is something in it. */
  function Terminate(parts: seq<string>): seq<string>
    requires parts != []
  {
    if |parts| > 1 then [parts[0] + ['\n']] + Terminate(parts[1..])
    else if parts[0] == "" then [] else parts
  }

  /** The lines of a stream: each with its newline, and a non-empty unterminated tail as a last line. */
  function RawLines(text: string): seq<string> { Terminate(Split(text, '\n')) }

  function Concat(parts: seq<string>): string {
    if parts == [] then "" else parts[0] + Concat(parts[1..])
  }

  lemma {:induction false} TerminateConcat(parts: seq<string>)
    requires parts != []
    ensures Concat(Terminate(parts)) == Join(parts, '\n')
  {
    if |parts| > 1 {
      TerminateConcat(parts[1..]);
      assert Terminate(parts)[1..] == Terminate(parts[1..]);
    }
  }

  lemma {:induction false} JoinSplit(text: string, sep: char)
    ensures Join(Split(text, sep), sep) == text
  {
    if text != "" {
      JoinSplit(text[1..], sep);
      var rest := Split(text[1..], sep);
      assert text == [text[0]] + text[1..];
      if text[0] == sep {
        assert Split(text, sep)[1..] == rest;
      } else {
        assert Split(text, sep)[1..] == rest[1..];
      }
    }
  }

  /** Nothing is lost: the lines of a stream make up the stream. */
  lemma RawLinesConcat(text: string)
    ensures Concat(RawLines(text)) == text
  {
    TerminateConcat(Split(text, '\n'));
    JoinSplit(text, '\n');
  }

  /** Terminated lines and then an unterminated tail are read as just that. */
  lemma {:induction false} RawLinesOf(lines: seq<string>, tail: string)
    requires '\n' !in tail && forall l :: l in lines ==> '\n' !in l
    ensures RawLines(Unlines(lines) + tail) == Terminate(lines + [tail])
  {
    if lines == [] {
      SplitPlain(tail, '\n');
      assert Unlines(lines) + tail == tail && lines + [tail] == [tail];
    } else {
      RawLinesOf(lines[1..], tail);
      var rest := Unlines(lines[1..]) + tail;
      SplitPrefix(lines[0], rest, '\n');
      assert Unlines(lines) + tail == lines[0] + ['\n'] + rest;
      assert (lines + [tail])[1..] == lines[1..] + [tail];
      assert Split(Unlines(lines) + tail, '\n')[1..] == Split(rest, '\n');
    }
  }

  lemma {:induction false} TerminateAt(parts: seq<string>)
    requires parts != []
    ensures var n := |parts| - 1;
      && |Terminate(parts)| == n + (if parts[n] == "" then 0 else 1)
      && (forall i :: 0 <= i < n ==> Terminate(parts)[i] == parts[i] + ['\n'])
      && (parts[n] != "" ==> Terminate(parts)[n] == parts[n])
  {
    if |parts| > 1 { TerminateAt(parts[1..]); }
  }

  /** White space, as Unicode classifies it. */
  predicate White(c: char) {
    var n := c as int;
    9 <= n <= 13 || n in {32, 0x85, 0xA0, 0x1680, 0x2028, 0x2029, 0x202F, 0x205F, 0x3000} || 0x2000 <= n <= 0x200A
  }

  /** In ASCII these are the space and the five controls from tab to carriage return; beyond, the Unicode spaces. */
  lemma WhiteMeaning(c: char)
    ensures (c as int) < 128 ==> (White(c) <==> c in {'\t', '\n', 11 as char, 12 as char, '\r', ' '})
    ensures c as int >= 128 ==>
      (White(c) <==> c as int in {133, 160, 5760, 8232, 8233, 8239, 8287, 12288} || 8192 <= c as int <= 8202)
  {
  }

  predicate AllWhite(s: string) { forall i :: 0 <= i < |s| ==> White(s[i]) }

  predicate IsDigit(c: char) { '0' <= c <= '9' }

  function Digit(n: nat): (c: char)
    requires n < 10
    ensures IsDigit(c) && c as int - '0' as int == n
  {
    ('0' as int + n) as char
  }

  function HexDigit(n: nat): (c: char)
    requires n < 16
    ensures IsDigit(c) || 'a' <= c <= 'f'
    ensures n == if IsDigit(c) then c as int - '0' as int else c as int - 'a' as int + 10
  {
    if n < 10 then ('0' as int + n) as char else ('a' as int + n - 10) as char
  }

  function Decimal(n: nat): (r: string)
    ensures r != "" && forall c :: c in r ==> IsDigit(c)
  {
    if n < 10 then [Digit(n)] else Decimal(n / 10) + [Digit(n % 10)]
  }

  function ParseDecimal(text: string): nat
    requires forall c :: c in text ==> IsDigit(c)
  {
    if text == "" then 0
    else
      assert IsDigit(text[|text| - 1]);
      10 * ParseDecimal(text[..|text| - 1]) + (text[|text| - 1] as int - '0' as int)
  }

  lemma {:induction false} ParseDecimalOf(n: nat)
    ensures ParseDecimal(Decimal(n)) == n
  {
    if n < 10 {
      assert Decimal(n)[..0] == "";
      assert ParseDecimal("") == 0;
    } else {
      ParseDecimalOf(n / 10);
      var shorter := Decimal(n / 10);
      assert Decimal(n)[..|Decimal(n)| - 1] == shorter;
    }
  }

  function FlatMap(f: char -> string, s: string): string {
    if s == "" then "" else f(s[0]) + FlatMap(f, s[1..])
  }

  lemma {:induction false} FlatMapAppends(f: char -> string, a: string, b: string)
    ensures FlatMap(f, a + b) == FlatMap(f, a) + FlatMap(f, b)
  {
    if a == "" {
      assert a + b == b;
    } else {
      FlatMapAppends(f, a[1..], b);
      assert (a + b)[1..] == a[1..] + b;
      assert f(a[0]) + (FlatMap(f, a[1..]) + FlatMap(f, b)) == (f(a[0]) + FlatMap(f, a[1..])) + FlatMap(f, b);
    }
  }

  lemma FlatMapNext(f: char -> string, s: string, i: nat)
    requires i < |s|
    ensures FlatMap(f, s[..i + 1]) == FlatMap(f, s[..i]) + f(s[i])
  {
    FlatMapAppends(f, s[..i], [s[i]]);
    assert s[..i + 1] == s[..i] + [s[i]];
    assert FlatMap(f, [s[i]]) == f(s[i]) + FlatMap(f, []);
  }
}
