/**
 * `format_token_for_moonbit`: one tokenizer token rendered as the text of a
 * MoonBit `Token` constructor, or nothing for parse errors and tokens of a
 * type it does not know.
 */
module TokenFormat {
  import opened Wrappers
  import opened Attributes
  import opened MoonBitEscape

  /**
   * A token record, one constructor per value of its `type` key. A field that
   * is `None` is a key the record does not have; the function then uses the
   * default the source names (`''`, `{}`, `False`). `attrs` is the StartTag's
   * `data` dictionary as its items, in the dictionary's own order.
   * `Unrecognised` is a record whose type is none of the names below, or
   * that has no type at all.
   */
  datatype Token =
    | StartTag(name: Option<string>, attrs: Option<seq<Attribute>>, selfClosing: Option<bool>)
    | EndTag(name: Option<string>)
    | Characters(data: Option<string>)
    | SpaceCharacters(data: Option<string>)
    | Comment(data: Option<string>)
    | Doctype(name: Option<string>, publicId: Option<string>, systemId: Option<string>, forceQuirks: bool)
    | ParseError
    | Unrecognised

  /** Python's `', '.join(items)`. */
  function JoinComma(items: seq<string>): string {
    if items == [] then ""
    else if |items| == 1 then items[0]
    else items[0] + ", " + JoinComma(items[1..])
  }

  /** Python's `str(b).lower()`. */
  function BoolText(b: bool): string {
    if b then "true" else "false"
  }

  /** One attribute of a StartTag, name and value escaped. */
  function AttrItem(a: Attribute): string {
    "{name: \"" + Escaped(a.name) + "\"" + ", value: \"" + Escaped(a.value) + "\"" + "}"
  }

  function AttrItems(attrs: seq<Attribute>): (items: seq<string>)
    ensures |items| == |attrs|
  {
    if attrs == [] then [] else [AttrItem(attrs[0])] + AttrItems(attrs[1..])
  }

  /** One code point of a Characters token. */
  function CharItem(c: char): string {
    "Character('" + Escaped([c]) + "')"
  }

  function CharItems(data: string): (items: seq<string>)
    ensures |items| == |data|
  {
    if data == [] then [] else [CharItem(data[0])] + CharItems(data[1..])
  }

  /** A Doctype field: `None` when missing or empty (Python's falsy test), else `Some("<escaped>")`. */
  function OptionalField(v: Option<string>): string {
    if v.Some? && v.value != "" then "Some(\"" + Escaped(v.value) + "\"" + ")" else "None"
  }

  function FormatToken(t: Token): (r: Option<string>)
    ensures r.None? <==> t.ParseError? || t.Unrecognised?
  {
    match t
    case StartTag(name, attrs, selfClosing) =>
      Some("StartTag(name=\"" + Escaped(name.GetOr("")) + "\"" + ", attrs=["
           + JoinComma(AttrItems(attrs.GetOr([]))) + "]" + ", self_closing="
           + BoolText(selfClosing.GetOr(false)) + ")")
    case EndTag(name) =>
      Some("EndTag(name=\"" + Escaped(name.GetOr("")) + "\"" + ")")
    case Characters(data) =>
      Some(JoinComma(CharItems(data.GetOr(""))))
    case SpaceCharacters(data) =>
      Some(JoinComma(CharItems(data.GetOr(""))))
    case Comment(data) =>
      Some("Comment(\"" + Escaped(data.GetOr("")) + "\"" + ")")
    case Doctype(name, publicId, systemId, _) =>
      Some("DOCTYPE(name=" + OptionalField(name) + ", public_id=" + OptionalField(publicId)
           + ", system_id=" + OptionalField(systemId) + ", force_quirks=false)")
    case ParseError => None
    case Unrecognised => None
  }

  /** Blank an optional Doctype field the way Python's truth test does. */
  function NonEmpty(v: Option<string>): Option<string> {
    if v.Some? && v.value != "" then v else None
  }

  /**
   * What the dump keeps of a token: defaults filled in, Characters and
   * SpaceCharacters merged, empty Doctype fields dropped, `force_quirks`
   * cleared.
   */
  function Canonical(t: Token): Token {
    match t
    case StartTag(name, attrs, selfClosing) =>
      StartTag(Some(name.GetOr("")), Some(attrs.GetOr([])), Some(selfClosing.GetOr(false)))
    case EndTag(name) => EndTag(Some(name.GetOr("")))
    case Characters(data) => Characters(Some(data.GetOr("")))
    case SpaceCharacters(data) => Characters(Some(data.GetOr("")))
    case Comment(data) => Comment(Some(data.GetOr("")))
    case Doctype(name, publicId, systemId, _) =>
      Doctype(NonEmpty(name), NonEmpty(publicId), NonEmpty(systemId), false)
    case ParseError => ParseError
    case Unrecognised => Unrecognised
  }

  /** A token and its canonical form print the same, so the canonical form loses nothing the dump shows. */
  lemma FormatCanonical(t: Token)
    ensures FormatToken(Canonical(t)) == FormatToken(t)
  {
  }

  /** Joining two non-empty lists puts one separator between their joined texts. */
  lemma {:induction false} JoinCommaAppend(xs: seq<string>, ys: seq<string>)
    requires xs != [] && ys != []
    ensures JoinComma(xs + ys) == JoinComma(xs) + ", " + JoinComma(ys)
  {
    if |xs| == 1 {
      assert (xs + ys)[1..] == ys;
    } else {
      assert (xs + ys)[1..] == xs[1..] + ys;
      JoinCommaAppend(xs[1..], ys);
    }
  }

  lemma {:induction false} CharItemsAppend(s: string, t: string)
    ensures CharItems(s + t) == CharItems(s) + CharItems(t)
  {
    if s == [] {
      assert s + t == t;
    } else {
      assert (s + t)[1..] == s[1..] + t;
      CharItemsAppend(s[1..], t);
    }
  }

  /** The k-th item of a Characters dump is the k-th code point, escaped on its own. */
  lemma {:induction false} CharItemsAt(data: string, k: nat)
    requires k < |data|
    ensures CharItems(data)[k] == "Character('" + EscapeChar(data[k]) + "')"
  {
    if k > 0 {
      CharItemsAt(data[1..], k - 1);
    }
  }

  /** A Characters and a SpaceCharacters token with the same data print the same. */
  lemma SpaceCharactersAsCharacters(d: Option<string>)
    ensures FormatToken(SpaceCharacters(d)) == FormatToken(Characters(d))
  {
  }

  /** A Characters token prints nothing exactly when its data is empty. */
  lemma CharactersEmpty(s: string)
    ensures FormatToken(Characters(Some(s))).value == "" <==> s == ""
  {
    if s != "" {
      assert CharItems(s)[0] == CharItem(s[0]);
      JoinCommaNonEmpty(CharItems(s));
    }
  }

  /**
   * A Characters token yields one item per code point, in order: the text of
   * `s + t` is the text of `s`, a separator, then the text of `t`.
   */
  lemma CharactersSplit(s: string, t: string)
    requires s != "" && t != ""
    ensures FormatToken(Characters(Some(s + t))).value
      == FormatToken(Characters(Some(s))).value + ", " + FormatToken(Characters(Some(t))).value
  {
    CharItemsAppend(s, t);
    JoinCommaAppend(CharItems(s), CharItems(t));
  }

  lemma {:induction false} JoinCommaNonEmpty(items: seq<string>)
    requires items != [] && items[0] != ""
    ensures JoinComma(items) != ""
  {
    if |items| > 1 {
      assert JoinComma(items)[..|items[0]|] == items[0];
    }
  }

  /** `force_quirks` is always printed as `false`, whatever the token carries. */
  lemma DoctypeIgnoresForceQuirks(n: Option<string>, p: Option<string>, s: Option<string>, q: bool)
    ensures FormatToken(Doctype(n, p, s, q)) == FormatToken(Doctype(n, p, s, false))
  {
  }
}
