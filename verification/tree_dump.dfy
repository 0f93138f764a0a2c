/**
 * The tree dump of `parse_html_to_tree`: the nested `element_to_str`, which
 * turns an element and its descendants into lines. An element gives its tag
 * line `<tag>`, one line per attribute in sorted order, a quoted line for its
 * text, then for each child the child's own lines one level deeper followed
 * by a quoted line for the child's tail. Every line starts with `| ` once per
 * level of depth.
 */
module TreeDump {
  import opened Attributes
  import opened Sequences

  /**
   * An element of the parsed tree. `attrib` is its attribute dictionary as
   * items in the dictionary's order; `text` is the text before its first
   * child and `tail` the text that follows it inside its parent, each `""`
   * when there is none (the dump treats a missing and an empty text alike).
   */
  datatype Element = Element(tag: string, attrib: seq<Attribute>, text: string, children: seq<Element>, tail: string)

  // ---------------------------------------------------------------------------
  // The tag, without its namespace.

  /** The text before the first `}`, or all of `s` when it has none. */
  function UpToBrace(s: string): (r: string)
    ensures |r| <= |s| && r == s[..|r|] && '}' !in r
    ensures |r| < |s| ==> s[|r|] == '}'
  {
    if s == [] || s[0] == '}' then [] else [s[0]] + UpToBrace(s[1..])
  }

  /** The text after the first `}`. */
  function AfterBrace(s: string): string
    requires '}' in s
  {
    s[|UpToBrace(s)| + 1..]
  }

  /** `tag.split('}')[1]` when the tag holds a `}`, else the tag itself. */
  function TagName(tag: string): string {
    if '}' in tag then UpToBrace(AfterBrace(tag)) else tag
  }

  /** A `{namespace}local` tag loses its namespace; a tag without `}` is kept. */
  lemma TagNameNamespaced(ns: string, local: string)
    requires '}' !in ns && '}' !in local
    ensures TagName("{" + ns + "}" + local) == local
    ensures TagName(local) == local
  {
    var tag := "{" + ns + "}" + local;
    assert tag[1 + |ns|] == '}';
    UpToBraceStops("{" + ns, "}" + local);
    assert AfterBrace(tag) == local by {
      assert tag == ("{" + ns) + ("}" + local);
    }
    UpToBraceWhole(local);
  }

  lemma {:induction false} UpToBraceStops(a: string, b: string)
    requires '}' !in a && b != [] && b[0] == '}'
    ensures UpToBrace(a + b) == a
  {
    if a != [] {
      assert (a + b)[1..] == a[1..] + b;
      UpToBraceStops(a[1..], b);
      assert a == [a[0]] + a[1..];
    } else {
      assert a + b == b;
    }
  }

  lemma {:induction false} UpToBraceWhole(s: string)
    requires '}' !in s
    ensures UpToBrace(s) == s
  {
    if s != [] {
      UpToBraceWhole(s[1..]);
      assert s == [s[0]] + s[1..];
    }
  }

  /** The printed name never holds a `}`, and stripping twice changes nothing. */
  lemma TagNameClean(tag: string)
    ensures '}' !in TagName(tag)
    ensures TagName(TagName(tag)) == TagName(tag)
  {
    UpToBraceWhole(TagName(tag));
  }

  // ---------------------------------------------------------------------------
  // The lines.

  /** `"| " * depth`. */
  function Prefix(depth: nat): string {
    if depth == 0 then "" else "| " + Prefix(depth - 1)
  }

  function Header(prefix: string, tag: string): string {
    prefix + ("<" + TagName(tag) + ">")
  }

  function AttrLine(prefix: string, a: Attribute): string {
    prefix + ("  " + a.name + "=\"" + a.value + "\"")
  }

  function QuotedLine(prefix: string, t: string): string {
    prefix + ("  \"" + t + "\"")
  }

  /** One line per attribute, in the order given. */
  function AttrLines(prefix: string, items: seq<Attribute>): (r: seq<string>)
    ensures |r| == |items|
  {
    if items == [] then [] else AttrLines(prefix, items[..|items| - 1]) + [AttrLine(prefix, items[|items| - 1])]
  }

  /** A quoted line for a non-empty text, nothing for an empty one (Python's truth test). */
  function TextLines(prefix: string, t: string): seq<string> {
    if t == "" then [] else [QuotedLine(prefix, t)]
  }

  /** The lines of `e` at the given depth. */
  function Dump(e: Element, depth: nat): seq<string>
    decreases e, 0
  {
    HeadLines(e, depth) + DumpChildren(e.children, depth)
  }

  /** The lines of the children of an element at the given depth, one block per child. */
  function DumpChildren(cs: seq<Element>, depth: nat): seq<string>
    decreases cs
  {
    if cs == [] then [] else DumpChildren(cs[..|cs| - 1], depth) + ChildBlock(cs[|cs| - 1], depth)
  }

  /** What a child adds to its parent at the given depth: its own lines one level deeper, then its tail. */
  function ChildBlock(c: Element, depth: nat): seq<string>
    decreases c, 1
  {
    Dump(c, depth + 1) + TextLines(Prefix(depth), c.tail)
  }

  /** The part of `element_to_str` before the children: tag, attributes, text. */
  function HeadLines(e: Element, depth: nat): seq<string> {
    var prefix := Prefix(depth);
    [Header(prefix, e.tag)] + AttrLines(prefix, SortAttributes(e.attrib)) + TextLines(prefix, e.text)
  }

  /**
   * The first half of `element_to_str(elem, indent)`: the tag line without
   * the namespace, the attribute lines in sorted order, the text line.
   */
  method ElementHead(e: Element, indent: nat) returns (lines: seq<string>)
    ensures lines == HeadLines(e, indent)
  {
    lines := [];
    var prefix := Prefix(indent);
    var tag := e.tag;
    if '}' in tag {
      tag := UpToBrace(AfterBrace(tag));
    }
    lines := lines + [prefix + ("<" + tag + ">")];
    if e.attrib != [] {
      var items := SortAttributes(e.attrib);
      for k := 0 to |items|
        invariant lines == [Header(prefix, e.tag)] + AttrLines(prefix, items[..k])
      {
        lines := lines + [AttrLine(prefix, items[k])];
        AttrLinesStep(prefix, [Header(prefix, e.tag)], items, k);
      }
      assert items[..|items|] == items;
    }
    if e.text != "" {
      lines := lines + [QuotedLine(prefix, e.text)];
    }
    HeadStep(e, indent, lines);
  }

  /** `element_to_str(elem, indent)`: the head lines, then each child one level deeper followed by its tail. */
  method ElementToStr(e: Element, indent: nat) returns (lines: seq<string>)
    ensures lines == Dump(e, indent)
    decreases e
  {
    var prefix := Prefix(indent);
    lines := ElementHead(e, indent);
    ghost var head := lines;
    assert e.children[..0] == [];
    for k := 0 to |e.children|
      invariant lines == head + DumpChildren(e.children[..k], indent)
    {
      var child := e.children[k];
      ghost var before := lines;
      var sub := ElementToStr(child, indent + 1);
      lines := lines + sub;
      if child.tail != "" {
        lines := lines + [QuotedLine(prefix, child.tail)];
      }
      ChildStep(head, e.children, indent, k, before, sub, lines);
    }
    ChildrenDone(e, indent, head, lines);
  }

  // ---------------------------------------------------------------------------
  // Properties of the dump.

  /** One more attribute line after the header and the attribute lines so far. */
  lemma AttrLinesStep(prefix: string, head: seq<string>, items: seq<Attribute>, k: nat)
    requires k < |items|
    ensures head + AttrLines(prefix, items[..k]) + [AttrLine(prefix, items[k])]
      == head + AttrLines(prefix, items[..k + 1])
  {
    assert items[..k + 1][..k] == items[..k];
  }

  /** Line `k` of the attribute lines is the line of attribute `k`. */
  lemma {:induction false} AttrLinesAt(prefix: string, items: seq<Attribute>)
    ensures forall k :: 0 <= k < |items| ==> AttrLines(prefix, items)[k] == AttrLine(prefix, items[k])
  {
    if items != [] {
      var init := items[..|items| - 1];
      AttrLinesAt(prefix, init);
      assert forall k :: 0 <= k < |init| ==> items[k] == init[k];
    }
  }

  /** The tag line, the attribute lines and the text line as `element_to_str` appends them are the head lines. */
  lemma HeadStep(e: Element, depth: nat, lines: seq<string>)
    requires var p := Prefix(depth);
      var head := [Header(p, e.tag)] + AttrLines(p, SortAttributes(e.attrib));
      lines == head + TextLines(p, e.text)
      || (e.text == "" && lines == head)
      || (e.attrib == [] && lines == [Header(p, e.tag)] + TextLines(p, e.text))
      || (e.attrib == [] && e.text == "" && lines == [Header(p, e.tag)])
    ensures lines == HeadLines(e, depth)
  {
  }

  /** Child `k`'s dump and its tail line, appended, extend the children's lines by one block. */
  lemma ChildStep(head: seq<string>, cs: seq<Element>, depth: nat, k: nat, before: seq<string>, sub: seq<string>, lines: seq<string>)
    requires k < |cs|
    requires before == head + DumpChildren(cs[..k], depth)
    requires sub == Dump(cs[k], depth + 1)
    requires lines == before + sub + TextLines(Prefix(depth), cs[k].tail)
      || (cs[k].tail == "" && lines == before + sub)
    ensures lines == head + DumpChildren(cs[..k + 1], depth)
  {
    var block := ChildBlock(cs[k], depth);
    assert lines == before + block;
    ChildrenStep(cs, k, depth);
    SeqRegroup(head, DumpChildren(cs[..k], depth), block);
  }

  /** All the children's blocks after the head lines make the dump. */
  lemma ChildrenDone(e: Element, depth: nat, head: seq<string>, lines: seq<string>)
    requires head == HeadLines(e, depth)
    requires lines == head + DumpChildren(e.children[..|e.children|], depth)
    ensures lines == Dump(e, depth)
  {
    assert e.children[..|e.children|] == e.children;
  }

  /** The children up to `k` and child `k`: one more block. */
  lemma ChildrenStep(cs: seq<Element>, k: nat, depth: nat)
    requires k < |cs|
    ensures DumpChildren(cs[..k + 1], depth) == DumpChildren(cs[..k], depth) + ChildBlock(cs[k], depth)
  {
    assert cs[..k + 1][..k] == cs[..k];
  }

  /** The children's lines are those of each child in turn: the dump of a list of children distributes over concatenation. */
  lemma {:induction false} DumpChildrenAppend(a: seq<Element>, b: seq<Element>, depth: nat)
    ensures DumpChildren(a + b, depth) == DumpChildren(a, depth) + DumpChildren(b, depth)
    decreases |b|
  {
    if b == [] {
      assert a + b == a;
    } else {
      var init := b[..|b| - 1];
      assert (a + b)[..|a + b| - 1] == a + init;
      assert (a + b)[|a + b| - 1] == b[|b| - 1];
      DumpChildrenAppend(a, init, depth);
      SeqRegroup(DumpChildren(a, depth), DumpChildren(init, depth), ChildBlock(b[|b| - 1], depth));
    }
  }

  /**
   * Child `k` of an element contributes, right after the lines of the
   * children before it, its own dump one level deeper and then its tail line.
   */
  lemma ChildLines(cs: seq<Element>, k: nat, depth: nat)
    requires k < |cs|
    ensures DumpChildren(cs, depth)
      == DumpChildren(cs[..k], depth) + Dump(cs[k], depth + 1) + TextLines(Prefix(depth), cs[k].tail)
         + DumpChildren(cs[k + 1..], depth)
  {
    var init := cs[..k + 1];
    assert cs == init + cs[k + 1..];
    DumpChildrenAppend(init, cs[k + 1..], depth);
    ChildrenStep(cs, k, depth);
  }

  /** `prefix` starts `line`. */
  predicate StartsWith(prefix: string, line: string) {
    |prefix| <= |line| && line[..|prefix|] == prefix
  }

  lemma {:induction false} PrefixStep(depth: nat)
    ensures Prefix(depth + 1) == Prefix(depth) + "| "
  {
    if depth > 0 {
      PrefixStep(depth - 1);
    }
  }

  /** Every line of an element's dump starts with the prefix of its depth. */
  lemma {:induction false} DumpIndented(e: Element, depth: nat)
    ensures forall i :: 0 <= i < |Dump(e, depth)| ==> StartsWith(Prefix(depth), Dump(e, depth)[i])
    decreases e, 1
  {
    var p := Prefix(depth);
    var head := HeadLines(e, depth);
    HeadIndented(e, depth);
    DumpChildrenIndented(e.children, depth);
    LinesStartWith(p, head, DumpChildren(e.children, depth));
  }

  lemma {:induction false} DumpChildrenIndented(cs: seq<Element>, depth: nat)
    ensures forall i :: 0 <= i < |DumpChildren(cs, depth)| ==> StartsWith(Prefix(depth), DumpChildren(cs, depth)[i])
    decreases cs, 0
  {
    if cs != [] {
      var c := cs[|cs| - 1];
      var p := Prefix(depth);
      DumpChildrenIndented(cs[..|cs| - 1], depth);
      DumpIndented(c, depth + 1);
      PrefixStep(depth);
      var sub := Dump(c, depth + 1);
      forall i | 0 <= i < |sub| ensures StartsWith(p, sub[i]) {
        assert sub[i][..|p|] == sub[i][..|p| + 2][..|p|];
      }
      LinesStartWith(p, sub, TextLines(p, c.tail));
      LinesStartWith(p, DumpChildren(cs[..|cs| - 1], depth), ChildBlock(c, depth));
    }
  }

  lemma HeadIndented(e: Element, depth: nat)
    ensures forall i :: 0 <= i < |HeadLines(e, depth)| ==> StartsWith(Prefix(depth), HeadLines(e, depth)[i])
  {
    var p := Prefix(depth);
    var items := SortAttributes(e.attrib);
    AttrLinesAt(p, items);
    var attrs := AttrLines(p, items);
    assert forall i :: 0 <= i < |attrs| ==> StartsWith(p, attrs[i]);
    LinesStartWith(p, [Header(p, e.tag)], attrs);
    LinesStartWith(p, [Header(p, e.tag)] + attrs, TextLines(p, e.text));
  }

  lemma LinesStartWith(p: string, a: seq<string>, b: seq<string>)
    requires forall i :: 0 <= i < |a| ==> StartsWith(p, a[i])
    requires forall i :: 0 <= i < |b| ==> StartsWith(p, b[i])
    ensures forall i :: 0 <= i < |a + b| ==> StartsWith(p, (a + b)[i])
  {
    forall i | 0 <= i < |a + b| ensures StartsWith(p, (a + b)[i]) {
      if i >= |a| { assert (a + b)[i] == b[i - |a|]; }
    }
  }

  /** Every line with `| ` put in front. */
  function Indent(lines: seq<string>): (r: seq<string>)
    ensures |r| == |lines|
  {
    seq(|lines|, i requires 0 <= i < |lines| => "| " + lines[i])
  }

  lemma IndentAppend(a: seq<string>, b: seq<string>)
    ensures Indent(a + b) == Indent(a) + Indent(b)
  {
  }

  lemma {:induction false} AttrLinesShift(p: string, items: seq<Attribute>)
    ensures AttrLines("| " + p, items) == Indent(AttrLines(p, items))
  {
    if items != [] {
      var last := items[|items| - 1];
      AttrLinesShift(p, items[..|items| - 1]);
      SeqRegroup("| ", p, "  " + last.name + "=\"" + last.value + "\"");
      IndentAppend(AttrLines(p, items[..|items| - 1]), [AttrLine(p, last)]);
    }
  }

  lemma TextLinesShift(p: string, t: string)
    ensures TextLines("| " + p, t) == Indent(TextLines(p, t))
  {
    SeqRegroup("| ", p, "  \"" + t + "\"");
  }

  /** One level deeper, the head lines are the same lines indented once more. */
  lemma HeadShift(e: Element, depth: nat)
    ensures HeadLines(e, depth + 1) == Indent(HeadLines(e, depth))
  {
    var p := Prefix(depth);
    var items := SortAttributes(e.attrib);
    SeqRegroup("| ", p, "<" + TagName(e.tag) + ">");
    assert [Header("| " + p, e.tag)] == Indent([Header(p, e.tag)]);
    AttrLinesShift(p, items);
    TextLinesShift(p, e.text);
    IndentAppend([Header(p, e.tag)], AttrLines(p, items));
    IndentAppend([Header(p, e.tag)] + AttrLines(p, items), TextLines(p, e.text));
  }

  /**
   * The dump of an element one level deeper is its dump with `| ` in front of
   * every line: a child's lines inside its parent are its own dump, shifted.
   */
  lemma {:induction false} DumpShift(e: Element, depth: nat)
    ensures Dump(e, depth + 1) == Indent(Dump(e, depth))
    decreases e, 1
  {
    HeadShift(e, depth);
    DumpChildrenShift(e.children, depth);
    IndentAppend(HeadLines(e, depth), DumpChildren(e.children, depth));
  }

  lemma {:induction false} DumpChildrenShift(cs: seq<Element>, depth: nat)
    ensures DumpChildren(cs, depth + 1) == Indent(DumpChildren(cs, depth))
    decreases cs, 0
  {
    if cs != [] {
      var c := cs[|cs| - 1];
      DumpChildrenShift(cs[..|cs| - 1], depth);
      DumpShift(c, depth + 1);
      TextLinesShift(Prefix(depth), c.tail);
      IndentAppend(Dump(c, depth + 1), TextLines(Prefix(depth), c.tail));
      IndentAppend(DumpChildren(cs[..|cs| - 1], depth), ChildBlock(c, depth));
    }
  }

  /** The tag line comes first, then one line per attribute in the order of the sorted items. */
  lemma DumpHead(e: Element, depth: nat)
    ensures var lines := Dump(e, depth);
      var items := SortAttributes(e.attrib);
      |lines| > |items|
      && lines[0] == Prefix(depth) + ("<" + TagName(e.tag) + ">")
      && forall k :: 0 <= k < |items| ==> lines[k + 1] == AttrLine(Prefix(depth), items[k])
  {
    var p := Prefix(depth);
    var items := SortAttributes(e.attrib);
    var attrs := AttrLines(p, items);
    var lines := Dump(e, depth);
    AttrLinesAt(p, items);
    assert lines == [Header(p, e.tag)] + attrs + (TextLines(p, e.text) + DumpChildren(e.children, depth));
    forall k | 0 <= k < |items| ensures lines[k + 1] == AttrLine(p, items[k]) {
      assert lines[k + 1] == attrs[k];
    }
  }

  /**
   * After the attribute lines comes the quoted text line, and only when the
   * text is not empty; the children's lines follow the head lines.
   */
  lemma DumpText(e: Element, depth: nat)
    ensures var items := SortAttributes(e.attrib);
      var head := HeadLines(e, depth);
      |head| == |items| + 1 + (if e.text == "" then 0 else 1)
      && (e.text != "" ==> Dump(e, depth)[|items| + 1] == QuotedLine(Prefix(depth), e.text))
      && Dump(e, depth)[|head|..] == DumpChildren(e.children, depth)
  {
    var p := Prefix(depth);
    var items := SortAttributes(e.attrib);
    var before := [Header(p, e.tag)] + AttrLines(p, items);
    assert Dump(e, depth) == before + (TextLines(p, e.text) + DumpChildren(e.children, depth));
  }

  /**
   * For a dictionary, the attribute lines hold exactly the element's
   * attributes, with names strictly ascending.
   */
  lemma DumpAttributes(e: Element, depth: nat)
    requires UniqueNames(e.attrib)
    ensures var lines := Dump(e, depth);
      var items := SortAttributes(e.attrib);
      (forall k :: 0 <= k < |items| ==> lines[k + 1] == AttrLine(Prefix(depth), items[k]))
      && (forall i, j :: 0 <= i < j < |items| ==> StrLeq(items[i].name, items[j].name) && items[i].name != items[j].name)
      && multiset(items) == multiset(e.attrib)
  {
    DumpHead(e, depth);
    SortedKeysAscending(e.attrib);
    SortAttributesPermutes(e.attrib);
  }
}
