/**
 * A reader for the token dump that `FormatToken` writes. Reading a printed
 * token gives back its canonical form, so two tokens print the same text
 * exactly when their canonical forms agree: the dump loses only the
 * defaults, the Characters/SpaceCharacters distinction, empty Doctype
 * fields and `force_quirks`.
 */
module TokenReader {
  import opened Wrappers
  import opened Attributes
  import opened MoonBitEscape
  import opened TokenFormat
  import opened Sequences

  /** `s` without the fixed text `p` at its head, if it is there. */
  function Expect(p: string, s: string): (r: Option<string>)
    ensures r.Some? ==> |r.value| == |s| - |p|
    decreases p
  {
    if p == [] then Some(s)
    else if s != [] && s[0] == p[0] then Expect(p[1..], s[1..])
    else None
  }

  /** Reads `{name: "<lit>", value: "<lit>"}`. */
  function ReadAttr(s: string): (r: Option<(Attribute, string)>)
    ensures r.Some? ==> |r.value.1| < |s|
  {
    match Expect("{name: \"", s)
    case None => None
    case Some(s1) =>
      match ReadLiteral(s1)
      case None => None
      case Some((n, r1)) =>
        match Expect(", value: \"", r1)
        case None => None
        case Some(s2) =>
          match ReadLiteral(s2)
          case None => None
          case Some((v, r2)) =>
            match Expect("}", r2)
            case None => None
            case Some(r3) => Some((Attribute(n, v), r3))
  }

  /** Reads `(, <attr>)*`, stopping before the first text that does not start with a separator. */
  function ReadMoreAttrs(s: string): (r: Option<(seq<Attribute>, string)>)
    decreases |s|
  {
    match Expect(", ", s)
    case None => Some(([], s))
    case Some(s1) =>
      match ReadAttr(s1)
      case None => None
      case Some((a, r1)) =>
        match ReadMoreAttrs(r1)
        case None => None
        case Some((more, r2)) => Some(([a] + more, r2))
  }

  /** Reads the inside of `attrs=[...]`, leaving the closing bracket. */
  function ReadAttrList(s: string): Option<(seq<Attribute>, string)> {
    if Expect("]", s).Some? then Some(([], s))
    else match ReadAttr(s)
      case None => None
      case Some((a, r1)) =>
        match ReadMoreAttrs(r1)
        case None => None
        case Some((more, r2)) => Some(([a] + more, r2))
  }

  /** Reads `Character('<unit>')`. */
  function ReadCharItem(s: string): (r: Option<(char, string)>)
    ensures r.Some? ==> |r.value.1| < |s|
  {
    match Expect("Character('", s)
    case None => None
    case Some(s1) =>
      match ReadUnit(s1)
      case None => None
      case Some((c, r1)) =>
        match Expect("')", r1)
        case None => None
        case Some(r2) => Some((c, r2))
  }

  /** Reads `(, <item>)*` to the end of the text. */
  function ReadMoreChars(s: string): Option<string>
    decreases |s|
  {
    if s == [] then Some([])
    else match Expect(", ", s)
      case None => None
      case Some(s1) =>
        match ReadCharItem(s1)
        case None => None
        case Some((c, r1)) =>
          match ReadMoreChars(r1)
          case None => None
          case Some(more) => Some([c] + more)
  }

  /** Reads a whole Characters dump: empty, or items separated by `, `. */
  function ReadChars(s: string): Option<string> {
    if s == [] then Some([])
    else match ReadCharItem(s)
      case None => None
      case Some((c, r1)) =>
        match ReadMoreChars(r1)
        case None => None
        case Some(more) => Some([c] + more)
  }

  /** Reads `None` or `Some("<lit>")`. */
  function ReadOptionalField(s: string): Option<(Option<string>, string)> {
    match Expect("None", s)
    case Some(r) => Some((None, r))
    case None =>
      match Expect("Some(\"", s)
      case None => None
      case Some(s1) =>
        match ReadLiteral(s1)
        case None => None
        case Some((v, r1)) =>
          match Expect(")", r1)
          case None => None
          case Some(r2) => Some((Some(v), r2))
  }

  /** Reads a fixed key, then `None` or `Some("<lit>")`. */
  function ReadField(key: string, s: string): Option<(Option<string>, string)> {
    match Expect(key, s)
    case None => None
    case Some(s1) => ReadOptionalField(s1)
  }

  /** Reads what follows `DOCTYPE(name=`. */
  function ReadDoctype(s: string): Option<Token> {
    match ReadOptionalField(s)
    case None => None
    case Some((n, r1)) =>
      match ReadField(", public_id=", r1)
      case None => None
      case Some((p, r2)) =>
        match ReadField(", system_id=", r2)
        case None => None
        case Some((y, r3)) =>
          if r3 == ", force_quirks=false)" then Some(Doctype(n, p, y, false)) else None
  }

  /** Reads `true)` or `false)`, the flag that ends a StartTag. */
  function ReadFlag(s: string): Option<bool> {
    if s == "true)" then Some(true) else if s == "false)" then Some(false) else None
  }

  /** Reads `], self_closing=<flag>)`, what follows the attribute list. */
  function ReadClosing(s: string): Option<bool> {
    match Expect("]", s)
    case None => None
    case Some(s1) =>
      match Expect(", self_closing=", s1)
      case None => None
      case Some(r) => ReadFlag(r)
  }

  /** Reads what follows `StartTag(name="`. */
  function ReadStartTag(s: string): Option<Token> {
    match ReadLiteral(s)
    case None => None
    case Some((n, r1)) =>
      match Expect(", attrs=[", r1)
      case None => None
      case Some(s2) =>
        match ReadAttrList(s2)
        case None => None
        case Some((attrs, r2)) =>
          match ReadClosing(r2)
          case None => None
          case Some(b) => Some(StartTag(Some(n), Some(attrs), Some(b)))
  }

  /** Reads what follows `EndTag(name="` or `Comment("`: a literal and the closing parenthesis. */
  function ReadLastLiteral(s: string): Option<string> {
    match ReadLiteral(s)
    case Some((x, r)) => if r == ")" then Some(x) else None
    case None => None
  }

  /** Reads one line of the token dump back into a token. */
  function ReadToken(line: string): Option<Token> {
    match Expect("StartTag(name=\"", line)
    case Some(s) => ReadStartTag(s)
    case None =>
      match Expect("EndTag(name=\"", line)
      case Some(s) => (match ReadLastLiteral(s) case Some(n) => Some(EndTag(Some(n))) case None => None)
      case None =>
        match Expect("Comment(\"", line)
        case Some(s) => (match ReadLastLiteral(s) case Some(d) => Some(Comment(Some(d))) case None => None)
        case None =>
          match Expect("DOCTYPE(name=", line)
          case Some(s) => ReadDoctype(s)
          case None =>
            match ReadChars(line)
            case Some(d) => Some(Characters(Some(d)))
            case None => None
  }


  // ---------------------------------------------------------------------------
  // Round trips, piece by piece. The printed texts are concatenations grouped
  // to the left and the readers take them apart from the left, so each proof
  // moves the pieces it has read across with `SeqRegroup`.

  lemma {:induction false} ExpectPrefix(p: string, x: string)
    ensures Expect(p, p + x) == Some(x)
  {
    if p != [] {
      assert (p + x)[0] == p[0] && (p + x)[1..] == p[1..] + x;
      ExpectPrefix(p[1..], x);
      assert Expect(p, p + x) == Expect(p[1..], p[1..] + x);
    } else {
      assert p + x == x;
    }
  }

  /** `Expect` succeeds exactly when `p` is a prefix of `s`. */
  lemma {:induction false} ExpectIff(p: string, s: string)
    ensures Expect(p, s).Some? <==> |p| <= |s| && s[..|p|] == p
  {
    if p != [] {
      if s != [] && s[0] == p[0] {
        ExpectIff(p[1..], s[1..]);
        if |p| <= |s| {
          assert s[..|p|] == [s[0]] + s[1..][..|p| - 1];
          assert p == [p[0]] + p[1..];
        }
      } else if |p| <= |s| {
        assert s[..|p|][0] != p[0];
      }
    }
  }

  /** `Expect` fails on a text that differs from `q` within the length of `q`. */
  lemma {:induction false} ExpectMismatch(q: string, s: string, k: nat)
    requires k < |q| && k < |s| && s[k] != q[k]
    ensures Expect(q, s).None?
  {
    if k > 0 && s[0] == q[0] {
      ExpectMismatch(q[1..], s[1..], k - 1);
    }
  }

  lemma ExpectHead(p: string, s: string)
    requires p != [] && Expect(p, s).Some?
    ensures s != [] && s[0] == p[0]
  {
  }

  /** A fixed text, an escaped literal, its closing quote, then `rest`. */
  lemma LiteralThen(p: string, x: string, rest: string)
    ensures Expect(p, p + Escaped(x) + "\"" + rest) == Some(Escaped(x) + "\"" + rest)
    ensures ReadLiteral(Escaped(x) + "\"" + rest) == Some((x, rest))
  {
    SeqRegroup(p, Escaped(x), "\"");
    SeqRegroup(p, Escaped(x) + "\"", rest);
    ExpectPrefix(p, Escaped(x) + "\"" + rest);
    ReadLiteralEscaped(x, rest);
  }

  lemma ReadAttrItem(a: Attribute, rest: string)
    ensures ReadAttr(AttrItem(a) + rest) == Some((a, rest))
  {
    var head := "{name: \"" + Escaped(a.name) + "\"";
    var v, e, q, c := ", value: \"", Escaped(a.value), "\"", "}";
    var r2 := c + rest;
    var r1 := v + e + q + r2;
    SeqRegroup(head + v + e + q, c, rest);
    SeqRegroup(head + v + e, q, r2);
    SeqRegroup(head + v, e, q + r2);
    SeqRegroup(head, v, e + (q + r2));
    SeqRegroup(v + e, q, r2);
    SeqRegroup(v, e, q + r2);
    LiteralThen("{name: \"", a.name, r1);
    LiteralThen(v, a.value, r2);
    ExpectPrefix(c, rest);
  }

  /** The attribute items after the first, each behind its separator. */
  function MoreAttrText(attrs: seq<Attribute>): string {
    if attrs == [] then "" else ", " + JoinComma(AttrItems(attrs))
  }

  lemma JoinHead(items: seq<string>)
    requires items != []
    ensures JoinComma(items) == items[0] + (if |items| == 1 then "" else ", " + JoinComma(items[1..]))
  {
  }

  /** A list of attribute items splits into the first item and the separated rest. */
  lemma AttrTextHead(attrs: seq<Attribute>)
    requires attrs != []
    ensures JoinComma(AttrItems(attrs)) == AttrItem(attrs[0]) + MoreAttrText(attrs[1..])
  {
    JoinHead(AttrItems(attrs));
    assert AttrItems(attrs)[1..] == AttrItems(attrs[1..]);
  }

  /** One step of `ReadMoreAttrs`, on texts already known to read as shown. */
  lemma ReadMoreAttrsStep(s: string, s1: string, a: Attribute, r1: string, more: seq<Attribute>, r2: string)
    requires Expect(", ", s) == Some(s1) && ReadAttr(s1) == Some((a, r1)) && ReadMoreAttrs(r1) == Some((more, r2))
    ensures ReadMoreAttrs(s) == Some(([a] + more, r2))
  {
  }

  lemma {:induction false} ReadMoreAttrsText(attrs: seq<Attribute>, rest: string)
    requires Expect(", ", rest).None?
    ensures ReadMoreAttrs(MoreAttrText(attrs) + rest) == Some((attrs, rest))
  {
    if attrs == [] {
      PrependEmpty(MoreAttrText(attrs), rest);
    } else {
      var more := MoreAttrText(attrs[1..]);
      var s1 := AttrItem(attrs[0]) + (more + rest);
      AttrTextHead(attrs);
      SeqRegroup(", ", AttrItem(attrs[0]) + more, rest);
      SeqRegroup(AttrItem(attrs[0]), more, rest);
      ExpectPrefix(", ", s1);
      ReadAttrItem(attrs[0], more + rest);
      ReadMoreAttrsText(attrs[1..], rest);
      ReadMoreAttrsStep(MoreAttrText(attrs) + rest, s1, attrs[0], more + rest, attrs[1..], rest);
      HeadTail(attrs);
    }
  }

  lemma ReadAttrListStep(s: string, a: Attribute, r1: string, more: seq<Attribute>, r2: string)
    requires Expect("]", s).None? && ReadAttr(s) == Some((a, r1)) && ReadMoreAttrs(r1) == Some((more, r2))
    ensures ReadAttrList(s) == Some(([a] + more, r2))
  {
  }

  lemma AttrListHead(attrs: seq<Attribute>, rest: string)
    requires attrs != []
    ensures JoinComma(AttrItems(attrs)) + rest == AttrItem(attrs[0]) + (MoreAttrText(attrs[1..]) + rest)
  {
    AttrTextHead(attrs);
    SeqRegroup(AttrItem(attrs[0]), MoreAttrText(attrs[1..]), rest);
  }

  lemma AttrItemNotBracket(a: Attribute, rest: string)
    ensures Expect("]", AttrItem(a) + rest).None?
  {
    ReadAttrItem(a, rest);
    ExpectHead("{name: \"", AttrItem(a) + rest);
  }

  lemma ReadAttrListText(attrs: seq<Attribute>, rest: string)
    requires Expect(", ", rest).None? && Expect("]", rest).Some?
    ensures ReadAttrList(JoinComma(AttrItems(attrs)) + rest) == Some((attrs, rest))
  {
    if attrs == [] {
      PrependEmpty(JoinComma(AttrItems(attrs)), rest);
    } else {
      var more := MoreAttrText(attrs[1..]);
      var s := AttrItem(attrs[0]) + (more + rest);
      AttrListHead(attrs, rest);
      ReadAttrItem(attrs[0], more + rest);
      AttrItemNotBracket(attrs[0], more + rest);
      ReadMoreAttrsText(attrs[1..], rest);
      ReadAttrListStep(s, attrs[0], more + rest, attrs[1..], rest);
      HeadTail(attrs);
    }
  }

  lemma ReadCharItemText(c: char, rest: string)
    ensures ReadCharItem(CharItem(c) + rest) == Some((c, rest))
  {
    var h, e, t := "Character('", Escaped([c]), "')";
    EscapedSingle(c);
    SeqRegroup(h + e, t, rest);
    SeqRegroup(h, e, t + rest);
    ExpectPrefix(h, e + (t + rest));
    ReadUnitEscapeChar(c, t + rest);
    ExpectPrefix(t, rest);
  }

  /** The character items after the first, each behind its separator. */
  function MoreCharText(d: string): string {
    if d == [] then "" else ", " + JoinComma(CharItems(d))
  }

  lemma CharTextHead(d: string)
    requires d != []
    ensures JoinComma(CharItems(d)) == CharItem(d[0]) + MoreCharText(d[1..])
  {
    JoinHead(CharItems(d));
    assert CharItems(d)[1..] == CharItems(d[1..]);
  }

  lemma ReadMoreCharsStep(s: string, s1: string, c: char, r1: string, more: string)
    requires s != [] && Expect(", ", s) == Some(s1) && ReadCharItem(s1) == Some((c, r1)) && ReadMoreChars(r1) == Some(more)
    ensures ReadMoreChars(s) == Some([c] + more)
  {
  }

  lemma {:induction false} ReadMoreCharsText(d: string)
    ensures ReadMoreChars(MoreCharText(d)) == Some(d)
  {
    if d != [] {
      var tail := MoreCharText(d[1..]);
      var s1 := CharItem(d[0]) + tail;
      assert Expect(", ", MoreCharText(d)) == Some(s1) by {
        CharTextHead(d);
        ExpectPrefix(", ", s1);
      }
      assert ReadCharItem(s1) == Some((d[0], tail)) by {
        ReadCharItemText(d[0], tail);
      }
      ReadMoreCharsText(d[1..]);
      ReadMoreCharsStep(MoreCharText(d), s1, d[0], tail, d[1..]);
      HeadTail(d);
    }
  }

  lemma ReadCharsStep(s: string, c: char, r1: string, more: string)
    requires ReadCharItem(s) == Some((c, r1)) && ReadMoreChars(r1) == Some(more)
    ensures ReadChars(s) == Some([c] + more)
  {
  }

  /** A Characters dump reads back as its data. */
  lemma ReadCharsText(d: string)
    ensures ReadChars(JoinComma(CharItems(d))) == Some(d)
  {
    if d != [] {
      var tail := MoreCharText(d[1..]);
      CharTextHead(d);
      ReadCharItemText(d[0], tail);
      ReadMoreCharsText(d[1..]);
      ReadCharsStep(JoinComma(CharItems(d)), d[0], tail, d[1..]);
      HeadTail(d);
    }
  }

  lemma CharsTextStart(d: string)
    requires d != []
    ensures var s := JoinComma(CharItems(d)); |s| >= 2 && s[0] == 'C' && s[1] == 'h'
  {
    var s := JoinComma(CharItems(d));
    CharTextHead(d);
    ReadCharItemText(d[0], MoreCharText(d[1..]));
    ExpectIff("Character('", s);
    assert s[..11][0] == s[0] && s[..11][1] == s[1];
  }

  /** A Characters dump is never taken for another kind of token. */
  lemma CharsTextOtherKinds(d: string)
    ensures var s := JoinComma(CharItems(d));
      Expect("StartTag(name=\"", s).None? && Expect("EndTag(name=\"", s).None?
      && Expect("Comment(\"", s).None? && Expect("DOCTYPE(name=", s).None?
  {
    var s := JoinComma(CharItems(d));
    if d != [] {
      CharsTextStart(d);
      ExpectMismatch("StartTag(name=\"", s, 0);
      ExpectMismatch("EndTag(name=\"", s, 0);
      ExpectMismatch("Comment(\"", s, 1);
      ExpectMismatch("DOCTYPE(name=", s, 0);
    }
  }

  lemma ReadOptionalFieldText(v: Option<string>, rest: string)
    ensures ReadOptionalField(OptionalField(v) + rest) == Some((NonEmpty(v), rest))
  {
    if v.Some? && v.value != "" {
      var lit := "Some(\"" + Escaped(v.value) + "\"";
      SeqRegroup(lit, ")", rest);
      LiteralThen("Some(\"", v.value, ")" + rest);
      ExpectHead("Some(\"", lit + (")" + rest));
      ExpectPrefix(")", rest);
    } else {
      ExpectPrefix("None", rest);
    }
  }

  lemma Regroup7(d: string, x1: string, x2: string, x3: string, x4: string, x5: string, x6: string)
    ensures d + x1 + x2 + x3 + x4 + x5 + x6 == d + (x1 + (x2 + (x3 + (x4 + (x5 + x6)))))
  {
  }

  lemma Regroup9(h: string, e: string, q: string, x1: string, x2: string, x3: string, x4: string, x5: string, x6: string)
    ensures h + e + q + x1 + x2 + x3 + x4 + x5 + x6 == h + ((e + q) + (x1 + (x2 + (x3 + (x4 + (x5 + x6))))))
  {
  }

  /** The end of a StartTag: the bracket that closes the list. */
  lemma ClosingText(c2: string)
    ensures Expect(", ", "]" + c2).None? && Expect("]", "]" + c2) == Some(c2)
  {
    ExpectPrefix("]", c2);
    ExpectMismatch(", ", "]" + c2, 0);
  }

  lemma ReadFlagText(b: bool)
    ensures ReadFlag(BoolText(b) + ")") == Some(b)
  {
    if b {
      assert BoolText(b) + ")" == "true)";
    } else {
      assert BoolText(b) + ")" == "false)";
    }
  }

  lemma ReadClosingText(b: bool)
    ensures ReadClosing("]" + (", self_closing=" + (BoolText(b) + ")"))) == Some(b)
  {
    var c3 := BoolText(b) + ")";
    ExpectPrefix("]", ", self_closing=" + c3);
    ExpectPrefix(", self_closing=", c3);
    ReadFlagText(b);
  }

  /** `ReadStartTag` on texts whose pieces are already known to read as shown. */
  lemma ReadStartTagStep(s: string, n: string, r1: string, s2: string, attrs: seq<Attribute>, r2: string, b: bool)
    requires ReadLiteral(s) == Some((n, r1)) && Expect(", attrs=[", r1) == Some(s2)
    requires ReadAttrList(s2) == Some((attrs, r2)) && ReadClosing(r2) == Some(b)
    ensures ReadStartTag(s) == Some(StartTag(Some(n), Some(attrs), Some(b)))
  {
  }

  /** What follows `StartTag(name="` reads back as the tag. */
  lemma ReadStartTagText(n: string, attrs: seq<Attribute>, b: bool)
    ensures var list := JoinComma(AttrItems(attrs));
      var c1 := "]" + (", self_closing=" + (BoolText(b) + ")"));
      ReadStartTag((Escaped(n) + "\"") + (", attrs=[" + (list + c1)))
        == Some(StartTag(Some(n), Some(attrs), Some(b)))
  {
    var list := JoinComma(AttrItems(attrs));
    var c2 := ", self_closing=" + (BoolText(b) + ")");
    var c1 := "]" + c2;
    ReadLiteralEscaped(n, ", attrs=[" + (list + c1));
    ExpectPrefix(", attrs=[", list + c1);
    ClosingText(c2);
    ReadAttrListText(attrs, c1);
    ReadClosingText(b);
    ReadStartTagStep((Escaped(n) + "\"") + (", attrs=[" + (list + c1)), n, ", attrs=[" + (list + c1),
                     list + c1, attrs, c1, b);
  }

  lemma ReadFieldText(key: string, v: Option<string>, rest: string)
    ensures ReadField(key, key + (OptionalField(v) + rest)) == Some((NonEmpty(v), rest))
  {
    ExpectPrefix(key, OptionalField(v) + rest);
    ReadOptionalFieldText(v, rest);
  }

  /** `ReadDoctype` on texts whose pieces are already known to read as shown. */
  lemma ReadDoctypeStep(s: string, n: Option<string>, r1: string, p: Option<string>, r2: string, y: Option<string>)
    requires ReadOptionalField(s) == Some((n, r1)) && ReadField(", public_id=", r1) == Some((p, r2))
    requires ReadField(", system_id=", r2) == Some((y, ", force_quirks=false)"))
    ensures ReadDoctype(s) == Some(Doctype(n, p, y, false))
  {
  }

  /** What follows `DOCTYPE(name=` reads back as the Doctype, empty fields dropped. */
  lemma ReadDoctypeText(n: Option<string>, p: Option<string>, y: Option<string>)
    ensures var fq := ", force_quirks=false)";
      var r2 := ", system_id=" + (OptionalField(y) + fq);
      var r1 := ", public_id=" + (OptionalField(p) + r2);
      ReadDoctype(OptionalField(n) + r1) == Some(Doctype(NonEmpty(n), NonEmpty(p), NonEmpty(y), false))
  {
    var fq := ", force_quirks=false)";
    var r2 := ", system_id=" + (OptionalField(y) + fq);
    var r1 := ", public_id=" + (OptionalField(p) + r2);
    ReadOptionalFieldText(n, r1);
    ReadFieldText(", public_id=", p, r2);
    ReadFieldText(", system_id=", y, fq);
    ReadDoctypeStep(OptionalField(n) + r1, NonEmpty(n), r1, NonEmpty(p), r2, NonEmpty(y));
  }

  /** `ReadToken` on a line starting with each kind's fixed text. */
  lemma ReadTokenStartTag(line: string, s: string)
    requires Expect("StartTag(name=\"", line) == Some(s)
    ensures ReadToken(line) == ReadStartTag(s)
  {
  }

  lemma ReadTokenEndTag(line: string, s: string, n: string)
    requires Expect("StartTag(name=\"", line).None? && Expect("EndTag(name=\"", line) == Some(s)
    requires ReadLastLiteral(s) == Some(n)
    ensures ReadToken(line) == Some(EndTag(Some(n)))
  {
  }

  lemma ReadTokenComment(line: string, s: string, d: string)
    requires Expect("StartTag(name=\"", line).None? && Expect("EndTag(name=\"", line).None?
    requires Expect("Comment(\"", line) == Some(s) && ReadLastLiteral(s) == Some(d)
    ensures ReadToken(line) == Some(Comment(Some(d)))
  {
  }

  lemma ReadTokenDoctype(line: string, s: string)
    requires Expect("StartTag(name=\"", line).None? && Expect("EndTag(name=\"", line).None?
    requires Expect("Comment(\"", line).None? && Expect("DOCTYPE(name=", line) == Some(s)
    ensures ReadToken(line) == ReadDoctype(s)
  {
  }

  lemma ReadTokenChars(line: string, d: string)
    requires Expect("StartTag(name=\"", line).None? && Expect("EndTag(name=\"", line).None?
    requires Expect("Comment(\"", line).None? && Expect("DOCTYPE(name=", line).None?
    requires ReadChars(line) == Some(d)
    ensures ReadToken(line) == Some(Characters(Some(d)))
  {
  }

  lemma ReadLastLiteralEscaped(x: string)
    ensures ReadLastLiteral(Escaped(x) + "\"" + ")") == Some(x)
  {
    ReadLiteralEscaped(x, ")");
  }

  lemma ReadStartTagLine(n: string, attrs: seq<Attribute>, b: bool)
    ensures ReadToken(FormatToken(StartTag(Some(n), Some(attrs), Some(b))).value)
      == Some(StartTag(Some(n), Some(attrs), Some(b)))
  {
    var h := "StartTag(name=\"";
    var list := JoinComma(AttrItems(attrs));
    var c1 := "]" + (", self_closing=" + (BoolText(b) + ")"));
    var body := (Escaped(n) + "\"") + (", attrs=[" + (list + c1));
    Regroup9(h, Escaped(n), "\"", ", attrs=[", list, "]", ", self_closing=", BoolText(b), ")");
    ExpectPrefix(h, body);
    ReadStartTagText(n, attrs, b);
    ReadTokenStartTag(h + body, body);
  }

  lemma ReadEndTagLine(n: string)
    ensures ReadToken(FormatToken(EndTag(Some(n))).value) == Some(EndTag(Some(n)))
  {
    var h := "EndTag(name=\"";
    var line := h + Escaped(n) + "\"" + ")";
    assert FormatToken(EndTag(Some(n))).value == line;
    LiteralThen(h, n, ")");
    ExpectHead(h, line);
    ExpectMismatch("StartTag(name=\"", line, 0);
    ReadLastLiteralEscaped(n);
    ReadTokenEndTag(line, Escaped(n) + "\"" + ")", n);
  }

  lemma ReadCommentLine(d: string)
    ensures ReadToken(FormatToken(Comment(Some(d))).value) == Some(Comment(Some(d)))
  {
    var h := "Comment(\"";
    var line := h + Escaped(d) + "\"" + ")";
    assert FormatToken(Comment(Some(d))).value == line;
    LiteralThen(h, d, ")");
    CommentLineStart(line);
    ReadLastLiteralEscaped(d);
    ReadTokenComment(line, Escaped(d) + "\"" + ")", d);
  }

  /** A line that starts as a Comment is neither a StartTag nor an EndTag. */
  lemma CommentLineStart(line: string)
    requires Expect("Comment(\"", line).Some?
    ensures Expect("StartTag(name=\"", line).None? && Expect("EndTag(name=\"", line).None?
  {
    ExpectHead("Comment(\"", line);
    ExpectMismatch("StartTag(name=\"", line, 0);
    ExpectMismatch("EndTag(name=\"", line, 0);
  }

  /** A line that starts as a Doctype is no other kind of token. */
  lemma DoctypeLineStart(line: string)
    requires Expect("DOCTYPE(name=", line).Some?
    ensures Expect("StartTag(name=\"", line).None? && Expect("EndTag(name=\"", line).None?
      && Expect("Comment(\"", line).None?
  {
    ExpectHead("DOCTYPE(name=", line);
    ExpectMismatch("StartTag(name=\"", line, 0);
    ExpectMismatch("EndTag(name=\"", line, 0);
    ExpectMismatch("Comment(\"", line, 0);
  }

  lemma ReadDoctypeLine(n: Option<string>, p: Option<string>, y: Option<string>, q: bool)
    ensures ReadToken(FormatToken(Doctype(n, p, y, q)).value) == Some(Doctype(NonEmpty(n), NonEmpty(p), NonEmpty(y), false))
  {
    var h := "DOCTYPE(name=";
    var fq := ", force_quirks=false)";
    var r2 := ", system_id=" + (OptionalField(y) + fq);
    var r1 := ", public_id=" + (OptionalField(p) + r2);
    var line := FormatToken(Doctype(n, p, y, q)).value;
    Regroup7(h, OptionalField(n), ", public_id=", OptionalField(p), ", system_id=", OptionalField(y), fq);
    ExpectPrefix(h, OptionalField(n) + r1);
    DoctypeLineStart(line);
    ReadDoctypeText(n, p, y);
    ReadTokenDoctype(line, OptionalField(n) + r1);
  }

  lemma ReadCharsLine(d: string)
    ensures ReadToken(FormatToken(Characters(Some(d))).value) == Some(Characters(Some(d)))
  {
    CharsTextOtherKinds(d);
    ReadCharsText(d);
    ReadTokenChars(JoinComma(CharItems(d)), d);
  }

  /** Every printed token reads back as its canonical form. */
  lemma ReadFormatted(t: Token)
    requires FormatToken(t).Some?
    ensures ReadToken(FormatToken(t).value) == Some(Canonical(t))
  {
    FormatCanonical(t);
    match t
    case StartTag(name, attrs, sc) => ReadStartTagLine(name.GetOr(""), attrs.GetOr([]), sc.GetOr(false));
    case EndTag(name) => ReadEndTagLine(name.GetOr(""));
    case Characters(data) => ReadCharsLine(data.GetOr(""));
    case SpaceCharacters(data) => ReadCharsLine(data.GetOr(""));
    case Comment(data) => ReadCommentLine(data.GetOr(""));
    case Doctype(n, p, y, q) => ReadDoctypeLine(n, p, y, q);
  }

  /** Two printed tokens give the same text exactly when their canonical forms agree. */
  lemma FormatInjective(t1: Token, t2: Token)
    requires FormatToken(t1).Some?
    ensures FormatToken(t1) == FormatToken(t2) <==> Canonical(t1) == Canonical(t2)
  {
    FormatCanonical(t1);
    FormatCanonical(t2);
    if FormatToken(t1) == FormatToken(t2) {
      ReadFormatted(t1);
      ReadFormatted(t2);
    }
  }
}
