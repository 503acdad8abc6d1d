/** Escaping of control and bidirectional characters in evidence text. */
module Sanitizing {
  import opened Options
  import opened Text
  import JsonText

  const BIDIRECTIONAL: set<int> := {
    0x061c, 0x200e, 0x200f, 0x202a, 0x202b, 0x202c, 0x202d, 0x202e, 0x2066, 0x2067, 0x2068, 0x2069
  }

  predicate NeedsEscape(c: char) {
    c as int in BIDIRECTIONAL || (c as int) < 0x20 || 0x7F <= c as int <= 0x9F
  }

  function EscapeCharacter(c: char): string {
    if NeedsEscape(c) then
      var n := c as int;
      ['\\', 'u', HexDigit(n / 0x1000 % 16), HexDigit(n / 0x100 % 16), HexDigit(n / 16 % 16), HexDigit(n % 16)]
    else [c]
  }

  /** Character-wise escaping. */
  function Escape(s: string): string { FlatMap(EscapeCharacter, s) }

  predicate Clean(s: string) { forall i :: 0 <= i < |s| ==> !NeedsEscape(s[i]) }

  /** A text cut at the matches of the terminal-sequence pattern. */
  datatype Span = Plain(text: string) | Ansi(text: string)

  function Flatten(spans: seq<Span>): string {
    if spans == [] then "" else spans[0].text + Flatten(spans[1..])
  }

  /** Replace each matched span by its escaped form. */
  function SubstituteAnsi(spans: seq<Span>): string {
    if spans == [] then ""
    else (if spans[0].Ansi? then Escape(spans[0].text) else spans[0].text) + SubstituteAnsi(spans[1..])
  }

  /** The pattern matcher is arbitrary, but it only cuts the text. */
  ghost predicate Cuts(ansi: string -> seq<Span>) { forall s :: Flatten(ansi(s)) == s }

  function SanitizeText(ansi: string -> seq<Span>, s: string): string {
    Escape(SubstituteAnsi(ansi(s)))
  }

  lemma {:induction false} EscapeOfClean(s: string)
    requires Clean(s)
    ensures Escape(s) == s
  {
    if s != "" { EscapeOfClean(s[1..]); }
  }

  lemma {:induction false} EscapeIsClean(s: string)
    ensures Clean(Escape(s))
  {
    if s != "" { EscapeIsClean(s[1..]); }
  }

  lemma EscapeTwice(s: string)
    ensures Escape(Escape(s)) == Escape(s)
  {
    EscapeIsClean(s);
    EscapeOfClean(Escape(s));
  }

  lemma {:induction false} EscapeIgnoresSpans(spans: seq<Span>)
    ensures Escape(SubstituteAnsi(spans)) == Escape(Flatten(spans))
  {
    if spans != [] {
      EscapeIgnoresSpans(spans[1..]);
      var head := if spans[0].Ansi? then Escape(spans[0].text) else spans[0].text;
      FlatMapAppends(EscapeCharacter, head, SubstituteAnsi(spans[1..]));
      FlatMapAppends(EscapeCharacter, spans[0].text, Flatten(spans[1..]));
      EscapeTwice(spans[0].text);
    }
  }

  /** Sanitizing is character-wise escaping whatever the pattern matches; it is idempotent and leaves clean text. */
  lemma SanitizeIsEscape(ansi: string -> seq<Span>, s: string)
    requires Cuts(ansi)
    ensures SanitizeText(ansi, s) == Escape(s)
    ensures Clean(SanitizeText(ansi, s))
    ensures SanitizeText(ansi, SanitizeText(ansi, s)) == SanitizeText(ansi, s)
  {
    EscapeIgnoresSpans(ansi(s));
    EscapeIsClean(s);
    EscapeIgnoresSpans(ansi(Escape(s)));
    EscapeTwice(s);
  }

  /** Text without characters to escape passes through unchanged, and only such text does. */
  lemma UnchangedIffClean(ansi: string -> seq<Span>, s: string)
    requires Cuts(ansi)
    ensures SanitizeText(ansi, s) == s <==> Clean(s)
  {
    SanitizeIsEscape(ansi, s);
    if Clean(s) { EscapeOfClean(s); }
  }

  // ------------------------------------------------------ what is escaped

  /** Exactly the control characters and the characters with the Unicode property Bidi_Control are escaped. */
  lemma NeedsEscapeMeaning(c: char)
    ensures var n := c as int;
      NeedsEscape(c) <==>
        || n <= 31 || 127 <= n <= 159
        || n == 1564 || 8206 <= n <= 8207 || 8234 <= n <= 8238 || 8294 <= n <= 8297
  {
  }

  /** An escape is a JSON escape: it names the code point of its character in four hexadecimal digits. */
  lemma EscapeNamesCharacter(c: char)
    requires NeedsEscape(c)
    ensures |EscapeCharacter(c)| == 6 && EscapeCharacter(c)[..2] == "\\u"
    ensures JsonText.FourHex(EscapeCharacter(c)[2..]) == Some(c as int)
  {
    FourDigits(c as int);
    var digits := EscapeCharacter(c)[2..];
    var n := c as int;
    DigitValue(n / 0x1000 % 16);
    DigitValue(n / 0x100 % 16);
    DigitValue(n / 16 % 16);
    DigitValue(n % 16);
  }

  lemma DigitValue(n: nat)
    requires n < 16
    ensures JsonText.HexValue(HexDigit(n)) == Some(n)
  {
  }

  // --------------------------------------------------------- what is lost

  /** The text starts with the escaped form of some character. */
  ghost predicate StartsEscape(w: string) {
    |w| >= 6 && exists c :: NeedsEscape(c) && EscapeCharacter(c) == w[..6]
  }

  /** The text itself contains something that looks like an escaped character. */
  ghost predicate HasLiteral(s: string) { exists i :: 0 <= i <= |s| && StartsEscape(s[i..]) }

  /** Decoding escaped characters from left to right. */
  ghost function Unescape(w: string): string {
    if w == "" then ""
    else if StartsEscape(w) then
      var c :| NeedsEscape(c) && EscapeCharacter(c) == w[..6];
      [c] + Unescape(w[6..])
    else [w[0]] + Unescape(w[1..])
  }

  lemma EscapesDiffer(c: char, d: char)
    requires NeedsEscape(c) && NeedsEscape(d) && EscapeCharacter(c) == EscapeCharacter(d)
    ensures c == d
  {
    var m, n := c as int, d as int;
    assert EscapeCharacter(c)[2..] == EscapeCharacter(d)[2..];
    assert m / 0x1000 % 16 == n / 0x1000 % 16 && m / 0x100 % 16 == n / 0x100 % 16 && m / 16 % 16 == n / 16 % 16 && m % 16 == n % 16;
    FourDigits(m);
    FourDigits(n);
  }

  lemma FourDigits(n: nat)
    requires n < 0x10000
    ensures n == n / 0x1000 % 16 * 0x1000 + n / 0x100 % 16 * 0x100 + n / 16 % 16 * 16 + n % 16
  {
  }

  lemma EscapeShape(w: string)
    requires StartsEscape(w)
    ensures w[0] == '\\' && forall i :: 1 <= i < 6 ==> w[i] != '\\' && !NeedsEscape(w[i])
  {
    var c :| NeedsEscape(c) && EscapeCharacter(c) == w[..6];
    assert forall i :: 0 <= i < 6 ==> w[i] == EscapeCharacter(c)[i];
  }

  lemma SameStart(w: string, v: string)
    requires StartsEscape(w) && |v| >= 6 && v[..6] == w[..6]
    ensures StartsEscape(v)
  {
  }

  /** A beginning of the escaped text without a backslash is a beginning of the text. */
  lemma {:induction false} UnescapedStart(s: string, k: nat)
    requires k <= |Escape(s)| && forall i :: 0 <= i < k ==> Escape(s)[i] != '\\'
    ensures k <= |s| && Escape(s)[..k] == s[..k]
  {
    if k > 0 {
      assert Escape(s)[0] != '\\';
      assert !NeedsEscape(s[0]);
      assert Escape(s) == [s[0]] + Escape(s[1..]);
      forall i | 0 <= i < k - 1 ensures Escape(s[1..])[i] != '\\' { assert Escape(s[1..])[i] == Escape(s)[i + 1]; }
      UnescapedStart(s[1..], k - 1);
      assert Escape(s)[..k] == [s[0]] + Escape(s[1..])[..k - 1];
    }
  }

  /** An escaped text starts with an escape only because of an escaped first character, or a literal one. */
  lemma StartOfEscaped(s: string)
    requires s != "" && !NeedsEscape(s[0]) && StartsEscape(Escape(s))
    ensures StartsEscape(s)
  {
    EscapeShape(Escape(s));
    var rest := Escape(s[1..]);
    assert Escape(s) == [s[0]] + rest;
    forall i | 0 <= i < 5 ensures rest[i] != '\\' { assert rest[i] == Escape(s)[i + 1]; }
    UnescapedStart(s[1..], 5);
    assert s[..6] == [s[0]] + s[1..][..5];
    assert Escape(s)[..6] == [s[0]] + rest[..5];
    SameStart(Escape(s), s);
  }

  lemma {:induction false} UnescapeEscape(s: string)
    requires !HasLiteral(s)
    ensures Unescape(Escape(s)) == s
  {
    if s != "" {
      forall i | 0 <= i <= |s[1..]| ensures !StartsEscape(s[1..][i..]) { assert s[1..][i..] == s[i + 1..]; }
      UnescapeEscape(s[1..]);
      var w, rest := Escape(s), Escape(s[1..]);
      assert s == [s[0]] + s[1..];
      if NeedsEscape(s[0]) {
        assert w[..6] == EscapeCharacter(s[0]) && w[6..] == rest;
        forall c | NeedsEscape(c) && EscapeCharacter(c) == w[..6] ensures c == s[0] { EscapesDiffer(c, s[0]); }
      } else {
        assert w[1..] == rest;
        assert s[0..] == s;
        if StartsEscape(w) { StartOfEscaped(s); }
      }
    }
  }

  lemma {:induction false} EscapeUnescape(w: string)
    requires Clean(w)
    ensures Escape(Unescape(w)) == w
  {
    if w != "" {
      if StartsEscape(w) {
        EscapeUnescape(w[6..]);
        assert w == w[..6] + w[6..];
      } else {
        EscapeUnescape(w[1..]);
        assert w == [w[0]] + w[1..];
      }
    }
  }

  /** A beginning of the decoded text without decoded characters is a beginning of the text. */
  lemma {:induction false} UndecodedStart(w: string, k: nat)
    requires k <= |Unescape(w)| && forall i :: 0 <= i < k ==> !NeedsEscape(Unescape(w)[i])
    ensures k <= |w| && Unescape(w)[..k] == w[..k]
  {
    if k > 0 {
      assert !NeedsEscape(Unescape(w)[0]);
      assert !StartsEscape(w);
      assert Unescape(w) == [w[0]] + Unescape(w[1..]);
      forall i | 0 <= i < k - 1 ensures !NeedsEscape(Unescape(w[1..])[i]) { assert Unescape(w[1..])[i] == Unescape(w)[i + 1]; }
      UndecodedStart(w[1..], k - 1);
      assert Unescape(w)[..k] == [w[0]] + Unescape(w[1..])[..k - 1];
    }
  }

  lemma StartOfDecoded(w: string)
    ensures !StartsEscape(Unescape(w))
  {
    var t := Unescape(w);
    if StartsEscape(t) {
      EscapeShape(t);
      UndecodedStart(w, 6);
      SameStart(t, w);
    }
  }

  lemma {:induction false} DecodedHasNoLiteral(w: string, i: nat)
    requires i <= |Unescape(w)|
    ensures !StartsEscape(Unescape(w)[i..])
  {
    var t := Unescape(w);
    if i == 0 {
      StartOfDecoded(w);
      assert t[0..] == t;
    } else {
      var rest := if StartsEscape(w) then w[6..] else w[1..];
      DecodedHasNoLiteral(rest, i - 1);
      assert t[i..] == Unescape(rest)[i - 1..];
    }
  }

  /** The sanitized text gives the original back exactly when the original had no literal escape in it. */
  lemma EscapeLosesOnlyLiterals(s: string)
    ensures Unescape(Escape(s)) == s <==> !HasLiteral(s)
  {
    if HasLiteral(s) && Unescape(Escape(s)) == s {
      var i :| 0 <= i <= |s| && StartsEscape(s[i..]);
      DecodedHasNoLiteral(Escape(s), i);
    }
    if !HasLiteral(s) { UnescapeEscape(s); }
  }

  /** Sanitizing keeps texts without literal escapes apart. */
  lemma EscapeKeepsApart(s: string, t: string)
    requires !HasLiteral(s) && !HasLiteral(t)
    ensures Escape(s) == Escape(t) <==> s == t
  {
    UnescapeEscape(s);
    UnescapeEscape(t);
  }

  /** Every text with a literal escape is confused with one that has none. */
  lemma LiteralsCollide(s: string) returns (t: string)
    requires HasLiteral(s)
    ensures t != s && !HasLiteral(t) && Escape(t) == Escape(s)
  {
    t := Unescape(Escape(s));
    EscapeIsClean(s);
    EscapeUnescape(Escape(s));
    forall i | 0 <= i <= |t| ensures !StartsEscape(t[i..]) { DecodedHasNoLiteral(Escape(s), i); }
  }

  /** Without a backslash there is no literal escape. */
  lemma NoBackslashNoLiteral(s: string)
    requires '\\' !in s
    ensures !HasLiteral(s)
  {
    forall i | 0 <= i <= |s| ensures !StartsEscape(s[i..]) {
      if i < |s| { assert s[i..][0] == s[i]; }
      if StartsEscape(s[i..]) { EscapeShape(s[i..]); }
    }
  }

  lemma DecimalIsClean(n: nat)
    ensures Clean(Decimal(n))
  {
    forall i | 0 <= i < |Decimal(n)| ensures !NeedsEscape(Decimal(n)[i]) {
      assert IsDigit(Decimal(n)[i]);
    }
  }
}
