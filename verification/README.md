# MoonBit reference dump of html5lib output

This project models the output side of `scripts/html_reference.py`, the
script that prints html5lib's tokens and trees in a form the MoonBit HTML
parser's tests compare against. It covers three parts:

- `escape_for_moonbit`: escapes text so it can sit inside a MoonBit string
  literal. The model is `MoonBitEscape.EscapeForMoonBit`, a loop that
  collects one piece per character and joins them. It is proved equal to
  `Escaped`, the per-character escaping function. A decoder (`ReadUnit`,
  `ReadLiteral`, `Unescape`) reads escaped text back, and the round trip is
  proved, so escaping is injective.
- `format_token_for_moonbit`: renders one tokenizer token as the text of a
  MoonBit `Token` constructor, or gives nothing for parse errors and unknown
  token types. The model is `TokenFormat.FormatToken`, a function over a
  `Token` datatype with one constructor per token type. Its partner is
  `TokenReader.ReadToken`, a reader for the printed line. Reading a printed
  token gives back its canonical form: defaults filled in, SpaceCharacters
  merged into Characters, empty Doctype fields dropped, `force_quirks`
  cleared. So two tokens print alike exactly when their canonical forms
  agree.
- `element_to_str`, nested in `parse_html_to_tree`: turns a parsed element
  and its descendants into lines. The model is `TreeDump.ElementHead` and
  `TreeDump.ElementToStr`, methods with the source's loops and recursion.
  They are proved equal to `TreeDump.Dump`, a function on an `Element`
  datatype. The lemmas about `Dump` cover:
  - every line carries the `| ` prefix of its depth;
  - a child's lines are its own dump shifted one level;
  - where child `k`'s block sits among its parent's lines;
  - the namespace strip;
  - the attribute lines: sorted, strictly ascending by name, and holding
    exactly the element's attributes.

`sorted(attrib.items())` is modelled as an insertion sort (`Attributes`),
with Python's tuple and string order written out. Its result is proved
ascending and a permutation of the input.

`element_to_str` escapes nothing: the tag (scripts/html_reference.py:79),
attribute names and values (84), the text (89) and tails (95) are
interpolated as they are. The model does the same.

## Model

| member | source | states |
|---|---|---|
| MoonBitEscape.EscapeForMoonBit | scripts/html_reference.py:15-38 | The loop's joined pieces equal `Escaped(s)`: each character's piece, in input order, chosen by the source's tests in the source's order. |
| MoonBitEscape.HexDigit | scripts/html_reference.py:31 | The digit of the `02x` format is a lower-case hex digit whose value is the given number. |
| MoonBitEscape.EscapedAppend | scripts/html_reference.py:18-38 | Escaping works character by character, so the escape of `s + t` is the escape of `s` followed by the escape of `t`. |
| MoonBitEscape.EscapeCharShape | scripts/html_reference.py:20-37 | A character that is not a backslash, a quote or a control is copied. Every other character becomes at least two characters starting with a backslash. |
| MoonBitEscape.EscapedLength | scripts/html_reference.py:15-38 | The output is never shorter than the input. It is exactly as long precisely when no character needs escaping, and it is then the input itself. |
| MoonBitEscape.ShortEscapes | scripts/html_reference.py:20-29 | Backslash, quote, newline, tab and carriage return get their two-character escapes, taking precedence over the `\u{..}` form. |
| MoonBitEscape.ControlEscape | scripts/html_reference.py:30-35 | Every other control character (below U+0020, U+007F, U+0080-U+009F) becomes `\u{hh}`: six characters, with two lower-case hex digits whose value is its code point. |
| MoonBitEscape.EscapeCharNoControl | scripts/html_reference.py:19-37 | One character's piece holds no control character and does not start with a quote. A quote inside it is always at index 1, after a backslash. |
| MoonBitEscape.EscapedNoControl | scripts/html_reference.py:15-38 | No character of the escaped text is a control character. |
| MoonBitEscape.EscapedQuotes | scripts/html_reference.py:22-23 | Every double quote in the escaped text comes right after a backslash. |
| MoonBitEscape.ReadUnitEscapeChar | scripts/html_reference.py:19-37 | Reading one escape unit off one character's piece gives back that character and leaves what follows untouched. |
| MoonBitEscape.ReadLiteralEscaped | scripts/html_reference.py:15-38 | Escaped text followed by a closing quote reads back as the original text, and reading stops at that quote. |
| MoonBitEscape.UnescapeEscaped | scripts/html_reference.py:15-38 | Decoding the escaped text gives back the input. |
| MoonBitEscape.EscapedInjective | scripts/html_reference.py:15-38 | Two texts with the same escaped form are equal. |
| TokenFormat.FormatToken | scripts/html_reference.py:105-145 | The dump is missing exactly for a ParseError token and for a token of any other unrecognised type. |
| TokenFormat.AttrItems | scripts/html_reference.py:113-116 | A StartTag yields one item per attribute. |
| TokenFormat.CharItems | scripts/html_reference.py:126 | Characters data yields one item per code point. |
| TokenFormat.FormatCanonical | scripts/html_reference.py:105-145 | A token prints the same as its canonical form: the source's defaults for missing keys, SpaceCharacters as Characters, empty Doctype fields as missing, `force_quirks` false. |
| TokenFormat.SpaceCharactersAsCharacters | scripts/html_reference.py:123 | A SpaceCharacters token and a Characters token with the same data print the same. |
| TokenFormat.CharactersEmpty | scripts/html_reference.py:123-127 | A Characters token prints the empty text exactly when its data is empty. |
| TokenFormat.CharItemsAt | scripts/html_reference.py:126 | Item `k` of a Characters dump is `Character('…')` around the escape of code point `k`. |
| TokenFormat.CharactersSplit | scripts/html_reference.py:123-127 | Splitting Characters data splits the dump at one `, ` separator. |
| TokenFormat.JoinCommaAppend | scripts/html_reference.py:113-116 | `', '.join` of two non-empty lists is their joins with one separator between them. |
| TokenFormat.DoctypeIgnoresForceQuirks | scripts/html_reference.py:133-140 | A Doctype prints `force_quirks=false` whatever the token's flag. |
| TokenReader.ReadOptionalFieldText | scripts/html_reference.py:137-139 | A Doctype field reads back as missing when it was missing or empty, and as its text otherwise. |
| TokenReader.ReadAttrListText | scripts/html_reference.py:113-116 | The joined attribute items read back as exactly the original attribute list, in order. |
| TokenReader.ReadStartTagText | scripts/html_reference.py:109-117 | The text after `StartTag(name="` reads back as the name, the attributes in order and the self-closing flag. |
| TokenReader.ReadDoctypeText | scripts/html_reference.py:133-140 | The text after `DOCTYPE(name=` reads back as the three fields with empty ones dropped. |
| TokenReader.ReadCharsText | scripts/html_reference.py:123-127 | A Characters dump reads back as its data. |
| TokenReader.CharsTextOtherKinds | scripts/html_reference.py:123-127 | A Characters dump never starts like a StartTag, EndTag, Comment or Doctype line. |
| TokenReader.ReadStartTagLine | scripts/html_reference.py:109-117 | A printed StartTag line reads back as the StartTag. |
| TokenReader.ReadEndTagLine | scripts/html_reference.py:119-121 | A printed EndTag line reads back as the EndTag. |
| TokenReader.ReadCommentLine | scripts/html_reference.py:129-131 | A printed Comment line reads back as the Comment. |
| TokenReader.ReadDoctypeLine | scripts/html_reference.py:133-140 | A printed Doctype line reads back as the Doctype with empty fields dropped and `force_quirks` false. |
| TokenReader.ReadCharsLine | scripts/html_reference.py:123-127 | A printed Characters line reads back as the Characters token. |
| TokenReader.ReadFormatted | scripts/html_reference.py:105-145 | Every token that prints reads back as its canonical form. |
| TokenReader.FormatInjective | scripts/html_reference.py:105-145 | Two tokens print the same text exactly when their canonical forms are equal, in both directions. |
| TreeDump.UpToBrace | scripts/html_reference.py:76-77 | The result is the prefix of the text before its first `}`, or the whole text when there is none. |
| TreeDump.TagNameNamespaced | scripts/html_reference.py:75-77 | `TagName`, the model of `tag.split('}')[1]`: a `{namespace}local` tag prints as `local`, and a tag without `}` prints unchanged. |
| TreeDump.TagNameClean | scripts/html_reference.py:75-77 | The tag `TagName` prints holds no `}`, and stripping it again changes nothing. |
| TreeDump.ElementHead | scripts/html_reference.py:71-89 | The tag line, the attribute lines and the text line that the source appends are the element's head lines. |
| TreeDump.ElementToStr | scripts/html_reference.py:70-97 | The returned lines are `Dump(e, indent)`: the head lines, then for each child in order its own lines one level deeper and a line for its tail if it has one. |
| TreeDump.AttrLinesAt | scripts/html_reference.py:83-84 | Attribute line `k` is the line of attribute `k`. |
| TreeDump.PrefixStep | scripts/html_reference.py:72 | The prefix one level deeper is the prefix with one more `| `. |
| TreeDump.DumpIndented | scripts/html_reference.py:70-97 | Every line of an element's dump starts with the prefix of its depth. |
| TreeDump.DumpShift | scripts/html_reference.py:70-97 | An element's dump one level deeper is its dump with `| ` in front of every line. |
| TreeDump.DumpChildrenAppend | scripts/html_reference.py:92-95 | The lines of a list of children are the lines of each part of the list in turn. |
| TreeDump.ChildLines | scripts/html_reference.py:92-95 | Child `k`'s own dump, one level deeper, and then its tail line come right after the lines of the children before it. |
| TreeDump.DumpHead | scripts/html_reference.py:79-84 | The first line is the tag line, followed by one line per attribute in the order of the sorted items. |
| TreeDump.DumpText | scripts/html_reference.py:86-95 | The head lines are the tag line, one line per attribute, and one quoted text line exactly when the text is not empty. That text line comes straight after the attribute lines, and the children's lines follow the head lines. |
| TreeDump.DumpAttributes | scripts/html_reference.py:82-84 | For a dictionary of attributes, the attribute lines hold exactly the element's attributes, with names strictly ascending. |
| Attributes.StrLeqTotal | scripts/html_reference.py:83 | Python's string order is total. |
| Attributes.StrLeqAntisymmetric | scripts/html_reference.py:83 | Python's string order is antisymmetric. |
| Attributes.StrLeqTransitive | scripts/html_reference.py:83 | Python's string order is transitive. |
| Attributes.AttrLeqTransitive | scripts/html_reference.py:83 | The `(key, value)` tuple order is transitive. |
| Attributes.AttrLeqTotal | scripts/html_reference.py:83 | The `(key, value)` tuple order is total. |
| Attributes.Insert | scripts/html_reference.py:83 | Insertion adds exactly the one item. |
| Attributes.InsertSorted | scripts/html_reference.py:83 | Insertion into an ascending list keeps it ascending. |
| Attributes.SortAttributesSorted | scripts/html_reference.py:83 | `SortAttributes`, the model of `sorted(attrib.items())`, is ascending in the tuple order. |
| Attributes.SortAttributesPermutes | scripts/html_reference.py:83 | `sorted(attrib.items())` holds the same items, each as often. |
| Attributes.InsertKeepsUniqueNames | scripts/html_reference.py:83 | Inserting an item whose key is new keeps the keys unique. |
| Attributes.SortKeepsUniqueNames | scripts/html_reference.py:83 | Sorting the items of a dictionary keeps the keys unique. |
| Attributes.SortedKeysAscending | scripts/html_reference.py:83 | For a dictionary, the sorted items have strictly ascending keys. |

## Left out

- `tokenize_html` and the html5lib tokenizer and tree builder behind it (scripts/html_reference.py:41-56, 59-68): they are library code. Tokens and elements are inputs here.
- The rest of `parse_html_to_tree` (scripts/html_reference.py:99-102): the `'\n'.join` of the lines and the conversion of exceptions into `(False, message)`. The model stops at the list of lines.
- `main` (scripts/html_reference.py:148-163): command-line arguments, reading input and printing are I/O.
- The unused `data` variable of the Characters branch (scripts/html_reference.py:124): it has no effect on the result.
- Token: a token is a constructor per `type` value, with an `Option` per key, rather than a dictionary. An unknown or missing `type` is `Unrecognised`. Extra keys, and values of types other than the ones the source expects, are not modelled.
- TokenFormat.FormatToken: StartTag attributes are the dictionary's items in insertion order. Duplicate keys are not excluded, since the dump prints whatever items it is given.
- TreeDump.Element: a missing text or tail is the empty string. The source tests their truth value, which treats `None` and `''` alike.
- TreeDump.ElementToStr: `str(elem.tag)` for a tag that is not a string (html5lib's comment and processing-instruction elements) is not modelled. Tags are strings.
- TreeDump.ElementHead: split off from `element_to_str` as a method of its own. It computes the same lines in the same order, and `ElementToStr` calls it before the children loop.
- Attributes.SortAttributes: `sorted` (Timsort in Python) is modelled as an insertion sort. Both give the unique ascending order of the items, and the model relies only on that.
- The dump is not checked against MoonBit's own lexer. A `'` inside `Character('…')` is copied as it is, as the source does, and the reader here reads it back by position.
- Characters are Unicode scalar values. Lone surrogates, which a Python string can hold, are not modelled.
- The decoder accepts exactly the `\u{hh}` form with two lower-case digits that the escaper writes. MoonBit's other escape forms are not read.
