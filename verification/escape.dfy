/**
 * Escaping of text for a MoonBit string literal (`escape_for_moonbit`).
 *
 * Each character is handled on its own: a backslash and a double quote get
 * a backslash in front, newline, tab and carriage return get their short
 * escapes, every other C0 control, U+007F and the C1 controls U+0080-U+009F
 * become `\u{hh}` with two lower-case hex digits, and everything else is
 * copied. `Unescape`/`ReadLiteral` read such text back.
 */
module MoonBitEscape {
  import opened Wrappers

  /** A character that must not appear raw in the output: below U+0020, U+007F, or U+0080-U+009F. */
  predicate IsControl(c: char) {
    c as int < 0x20 || c as int == 0x7F || (0x80 <= c as int <= 0x9F)
  }

  /** A character that is copied unchanged. */
  predicate IsPlain(c: char) {
    c != '\\' && c != '"' && !IsControl(c)
  }

  /** The lower-case hex digit for 0 <= k < 16 (Python's `x` format). */
  function HexDigit(k: nat): (h: char)
    requires k < 16
    ensures IsLowerHex(h) && HexValue(h) == k
  {
    if k < 10 then ('0' as int + k) as char else ('a' as int + k - 10) as char
  }

  predicate IsLowerHex(h: char) {
    ('0' <= h <= '9') || ('a' <= h <= 'f')
  }

  /** The value of a lower-case hex digit, read independently of `HexDigit`. */
  function HexValue(h: char): nat
    requires IsLowerHex(h)
  {
    if h <= '9' then h as int - '0' as int else h as int - 'a' as int + 10
  }

  /** `\u{hh}` for a code below 256, with `hh` zero-padded to two digits (Python's `02x`). */
  function UnicodeEscape(code: nat): string
    requires code < 0x100
  {
    "\\u{" + [HexDigit(code / 16), HexDigit(code % 16)] + "}"
  }

  /** What one input character becomes. The order of the tests is the source's. */
  function EscapeChar(c: char): string {
    if c == '\\' then "\\\\"
    else if c == '"' then "\\\""
    else if c == '\n' then "\\n"
    else if c == '\t' then "\\t"
    else if c == '\r' then "\\r"
    else if c as int < 0x20 then UnicodeEscape(c as int)
    else if c as int == 0x7F then "\\u{7f}"
    else if 0x80 <= c as int <= 0x9F then UnicodeEscape(c as int)
    else [c]
  }

  /** The escaped text: the pieces of all characters, joined in order. */
  function Escaped(s: string): string {
    if s == [] then [] else EscapeChar(s[0]) + Escaped(s[1..])
  }

  /** The concatenation of a list of pieces (Python's `''.join`). */
  function Concat(pieces: seq<string>): string {
    if pieces == [] then [] else Concat(pieces[..|pieces| - 1]) + pieces[|pieces| - 1]
  }

  /** `escape_for_moonbit`: appends one piece per character to a list, then joins the list. */
  method EscapeForMoonBit(s: string) returns (r: string)
    ensures r == Escaped(s)
  {
    var result: seq<string> := [];
    for i := 0 to |s|
      invariant |result| == i
      invariant Concat(result) == Escaped(s[..i])
    {
      var c := s[i];
      var code := c as int;
      var piece: string;
      if c == '\\' {
        piece := "\\\\";
      } else if c == '"' {
        piece := "\\\"";
      } else if c == '\n' {
        piece := "\\n";
      } else if c == '\t' {
        piece := "\\t";
      } else if c == '\r' {
        piece := "\\r";
      } else if code < 0x20 {
        piece := UnicodeEscape(code);
      } else if code == 0x7F {
        piece := "\\u{7f}";
      } else if 0x80 <= code <= 0x9F {
        piece := UnicodeEscape(code);
      } else {
        piece := [c];
      }
      assert piece == EscapeChar(s[i]);
      EscapedSnoc(s, i);
      ConcatSnoc(result, piece);
      result := result + [piece];
    }
    assert s[..|s|] == s;
    r := Concat(result);
  }

  lemma ConcatSnoc(pieces: seq<string>, x: string)
    ensures Concat(pieces + [x]) == Concat(pieces) + x
  {
    assert (pieces + [x])[..|pieces|] == pieces;
  }

  /** Escaping one more character of `s` appends that character's piece. */
  lemma EscapedSnoc(s: string, i: nat)
    requires i < |s|
    ensures Escaped(s[..i + 1]) == Escaped(s[..i]) + EscapeChar(s[i])
  {
    assert s[..i + 1] == s[..i] + [s[i]];
    EscapedAppend(s[..i], [s[i]]);
    EscapedSingle(s[i]);
  }

  lemma EscapedSingle(c: char)
    ensures Escaped([c]) == EscapeChar(c)
  {
    EscapedAppend([], [c]);
  }

  /** Escaping is per character: it distributes over concatenation. */
  lemma {:induction false} EscapedAppend(s: string, t: string)
    ensures Escaped(s + t) == Escaped(s) + Escaped(t)
  {
    if s == [] {
      assert s + t == t;
    } else {
      assert (s + t)[1..] == s[1..] + t;
      EscapedAppend(s[1..], t);
    }
  }

  /** A plain character is copied; every other one becomes at least two characters starting with a backslash. */
  lemma EscapeCharShape(c: char)
    ensures IsPlain(c) ==> EscapeChar(c) == [c]
    ensures !IsPlain(c) ==> |EscapeChar(c)| >= 2 && EscapeChar(c)[0] == '\\'
  {
  }

  /** The output is never shorter than the input, equally long exactly when every character is plain, and then equal to it. */
  lemma {:induction false} EscapedLength(s: string)
    ensures |Escaped(s)| >= |s|
    ensures |Escaped(s)| == |s| <==> (forall i :: 0 <= i < |s| ==> IsPlain(s[i]))
    ensures (forall i :: 0 <= i < |s| ==> IsPlain(s[i])) ==> Escaped(s) == s
  {
    if s != [] {
      EscapedLength(s[1..]);
      EscapeCharShape(s[0]);
      assert forall i :: 1 <= i < |s| ==> s[i] == s[1..][i - 1];
      if forall i :: 0 <= i < |s[1..]| ==> IsPlain(s[1..][i]) {
        assert [s[0]] + s[1..] == s;
      }
    }
  }

  /** The short escapes: backslash, quote, newline, tab and carriage return (the short form wins over `\u{..}`). */
  lemma ShortEscapes()
    ensures EscapeChar('\\') == ['\\', '\\']
    ensures EscapeChar('"') == ['\\', '"']
    ensures EscapeChar('\n') == ['\\', 'n']
    ensures EscapeChar('\t') == ['\\', 't']
    ensures EscapeChar('\r') == ['\\', 'r']
  {
  }

  /**
   * Every other control character becomes `\u{` followed by exactly two
   * lower-case hex digits whose value is its code point, and `}`.
   */
  lemma ControlEscape(c: char)
    requires IsControl(c) && c != '\n' && c != '\t' && c != '\r'
    ensures var e := EscapeChar(c);
      |e| == 6 && e[..3] == "\\u{" && e[5] == '}'
      && IsLowerHex(e[3]) && IsLowerHex(e[4])
      && 16 * HexValue(e[3]) + HexValue(e[4]) == c as int
  {
  }

  /** Every piece is either one plain character or ASCII text free of control characters and ending the escape. */
  lemma EscapeCharNoControl(c: char)
    ensures forall k :: 0 <= k < |EscapeChar(c)| ==> !IsControl(EscapeChar(c)[k])
    ensures EscapeChar(c) != [] && EscapeChar(c)[0] != '"'
    ensures forall k :: 0 <= k < |EscapeChar(c)| && EscapeChar(c)[k] == '"' ==> k == 1 && EscapeChar(c)[0] == '\\'
  {
  }

  /** No raw control character from the escaped ranges survives in the output. */
  lemma {:induction false} EscapedNoControl(s: string)
    ensures forall k :: 0 <= k < |Escaped(s)| ==> !IsControl(Escaped(s)[k])
  {
    if s != [] {
      EscapedNoControl(s[1..]);
      EscapeCharNoControl(s[0]);
      var e, rest := EscapeChar(s[0]), Escaped(s[1..]);
      forall k | 0 <= k < |e + rest| ensures !IsControl((e + rest)[k]) {
        if k >= |e| { assert (e + rest)[k] == rest[k - |e|]; }
      }
    }
  }

  /** Every double quote in the output is immediately preceded by a backslash. */
  lemma {:induction false} EscapedQuotes(s: string)
    ensures forall k :: 0 <= k < |Escaped(s)| && Escaped(s)[k] == '"' ==> k > 0 && Escaped(s)[k - 1] == '\\'
  {
    if s != [] {
      EscapedQuotes(s[1..]);
      EscapeCharNoControl(s[0]);
      var e, rest := EscapeChar(s[0]), Escaped(s[1..]);
      forall k | 0 <= k < |e + rest| && (e + rest)[k] == '"' ensures k > 0 && (e + rest)[k - 1] == '\\' {
        if k >= |e| {
          assert (e + rest)[k] == rest[k - |e|];
          if k > |e| { assert (e + rest)[k - 1] == rest[k - 1 - |e|]; }
        }
      }
    }
  }

  // ---------------------------------------------------------------------------
  // Reading the escaped text back.

  /** Reads one escaped unit at the head of `s`: the character it stands for and what follows. */
  function ReadUnit(s: string): (r: Option<(char, string)>)
    ensures r.Some? ==> |r.value.1| < |s|
  {
    if s == [] || s[0] == '"' then None
    else if s[0] != '\\' then Some((s[0], s[1..]))
    else if |s| < 2 then None
    else if s[1] == '\\' then Some(('\\', s[2..]))
    else if s[1] == '"' then Some(('"', s[2..]))
    else if s[1] == 'n' then Some(('\n', s[2..]))
    else if s[1] == 't' then Some(('\t', s[2..]))
    else if s[1] == 'r' then Some(('\r', s[2..]))
    else if s[1] == 'u' && |s| >= 6 && s[2] == '{' && IsLowerHex(s[3]) && IsLowerHex(s[4]) && s[5] == '}'
    then Some(((16 * HexValue(s[3]) + HexValue(s[4])) as char, s[6..]))
    else None
  }

  /** Reads the body of a string literal up to its closing (unescaped) quote: the text and what follows the quote. */
  function ReadLiteral(s: string): (r: Option<(string, string)>)
    ensures r.Some? ==> |r.value.1| < |s|
    decreases |s|
  {
    if s == [] then None
    else if s[0] == '"' then Some(([], s[1..]))
    else match ReadUnit(s)
      case None => None
      case Some((c, rest)) =>
        match ReadLiteral(rest)
        case None => None
        case Some((t, after)) => Some(([c] + t, after))
  }

  /** Decodes a whole escaped text. */
  function Unescape(s: string): Option<string>
    decreases |s|
  {
    if s == [] then Some([])
    else match ReadUnit(s)
      case None => None
      case Some((c, rest)) =>
        match Unescape(rest)
        case None => None
        case Some(t) => Some([c] + t)
  }

  /** One escaped character reads back as itself, whatever follows it. */
  lemma ReadUnitEscapeChar(c: char, rest: string)
    ensures ReadUnit(EscapeChar(c) + rest) == Some((c, rest))
  {
    var e := EscapeChar(c);
    var s := e + rest;
    if IsPlain(c) {
      assert s[0] == c && s[1..] == rest;
    } else if c == '\\' || c == '"' || c == '\n' || c == '\t' || c == '\r' {
      assert s[..2] == e && s[2..] == rest;
    } else {
      ControlEscape(c);
      assert s[..6] == e && s[6..] == rest;
      assert s[3] == e[3] && s[4] == e[4];
    }
  }

  /** The escaped text followed by a closing quote reads back as the original text, leaving what follows. */
  lemma {:induction false} ReadLiteralEscaped(s: string, rest: string)
    ensures ReadLiteral(Escaped(s) + "\"" + rest) == Some((s, rest))
  {
    if s == [] {
      assert Escaped(s) + "\"" + rest == "\"" + rest;
    } else {
      var e := EscapeChar(s[0]);
      var tail := Escaped(s[1..]) + "\"" + rest;
      assert Escaped(s) + "\"" + rest == e + tail;
      EscapeCharNoControl(s[0]);
      ReadUnitEscapeChar(s[0], tail);
      ReadLiteralEscaped(s[1..], rest);
      assert [s[0]] + s[1..] == s;
    }
  }

  /** Unescaping inverts escaping. */
  lemma {:induction false} UnescapeEscaped(s: string)
    ensures Unescape(Escaped(s)) == Some(s)
  {
    if s != [] {
      ReadUnitEscapeChar(s[0], Escaped(s[1..]));
      EscapeCharNoControl(s[0]);
      UnescapeEscaped(s[1..]);
      assert [s[0]] + s[1..] == s;
    }
  }

  /** Escaping is injective: two texts with the same escaped form are equal. */
  lemma EscapedInjective(s: string, t: string)
    requires Escaped(s) == Escaped(t)
    ensures s == t
  {
    UnescapeEscaped(s);
    UnescapeEscaped(t);
  }
}
