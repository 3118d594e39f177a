/**
 * `src/lib/xlsx-to-markdown.js`: every sheet of a workbook becomes an HTML table, one row per
 * row of the sheet's range and one cell per column, with escaped text and, on request, inline
 * styles; the HTML then goes through the markdown conversion.
 */
module XlsxToMarkdown {
  import opened Wrappers
  import opened Strings
  import opened Markdown

  // ---------------------------------------------------------------------------
  // escapeHtml
  // ---------------------------------------------------------------------------

  /** `escapeHtml(unsafe)`: five global replacements, `&` first. */
  function EscapeHtml(unsafe: string): string {
    ReplaceAll(ReplaceAll(ReplaceAll(ReplaceAll(ReplaceAll(
      unsafe, "&", "&amp;"), "<", "&lt;"), ">", "&gt;"), "\"", "&quot;"), "'", "&#039;")
  }

  /** The reference escaping of one character. */
  function EscapeChar(c: char): string {
    if c == '&' then "&amp;"
    else if c == '<' then "&lt;"
    else if c == '>' then "&gt;"
    else if c == '"' then "&quot;"
    else if c == '\'' then "&#039;"
    else [c]
  }

  /** The reference escaping: each character escaped on its own, in order. */
  function EscapeChars(s: string): string
    decreases |s|
  {
    if s == [] then [] else EscapeChar(s[0]) + EscapeChars(s[1..])
  }

  /** The characters that would be read as markup in an element or an attribute value. */
  predicate IsMarkup(c: char) {
    c == '<' || c == '>' || c == '"' || c == '\''
  }

  /** One of the five characters `escapeHtml` rewrites. */
  predicate IsSpecial(c: char) {
    c == '&' || IsMarkup(c)
  }

  /** No raw markup character. */
  predicate NoRaw(t: string) {
    forall i :: 0 <= i < |t| ==> !IsMarkup(t[i])
  }

  /** Reading the five entities back, left to right; any other character is kept. */
  function Unescape(t: string): string
    decreases |t|
  {
    if t == [] then []
    else if StartsWith(t, "&amp;") then "&" + Unescape(t[5..])
    else if StartsWith(t, "&lt;") then "<" + Unescape(t[4..])
    else if StartsWith(t, "&gt;") then ">" + Unescape(t[4..])
    else if StartsWith(t, "&quot;") then "\"" + Unescape(t[6..])
    else if StartsWith(t, "&#039;") then "'" + Unescape(t[6..])
    else [t[0]] + Unescape(t[1..])
  }

  /** Every `c` of `s` replaced by `rep`. */
  function MapChar(s: string, c: char, rep: string): string
    decreases |s|
  {
    if s == [] then [] else (if s[0] == c then rep else [s[0]]) + MapChar(s[1..], c, rep)
  }

  /** A global replacement of a one-character pattern rewrites each occurrence of that character. */
  lemma {:induction false} ReplaceAllChar(s: string, c: char, rep: string)
    ensures ReplaceAll(s, [c], rep) == MapChar(s, c, rep)
    decreases |s|
  {
    if s != [] {
      ReplaceAllChar(s[1..], c, rep);
      assert StartsWith(s, [c]) <==> s[0] == c by { assert s[..1] == [s[0]]; }
    }
  }

  lemma {:induction false} MapCharAppend(a: string, b: string, c: char, rep: string)
    ensures MapChar(a + b, c, rep) == MapChar(a, c, rep) + MapChar(b, c, rep)
    decreases |a|
  {
    if a != [] {
      MapCharAppend(a[1..], b, c, rep);
      assert (a + b)[0] == a[0] && (a + b)[1..] == a[1..] + b;
      var head := if a[0] == c then rep else [a[0]];
      assert MapChar(a + b, c, rep) == head + MapChar(a[1..] + b, c, rep);
      assert MapChar(a, c, rep) == head + MapChar(a[1..], c, rep);
      AppendAssoc(head, MapChar(a[1..], c, rep), MapChar(b, c, rep));
    } else {
      assert a + b == b;
    }
  }

  lemma {:induction false} MapCharAbsent(s: string, c: char, rep: string)
    requires c !in s
    ensures MapChar(s, c, rep) == s
    decreases |s|
  {
    if s != [] {
      MapCharAbsent(s[1..], c, rep);
    }
  }

  lemma {:induction false} MapCharSingle(x: char, c: char, rep: string)
    ensures MapChar([x], c, rep) == if x == c then rep else [x]
  {
    assert [x][1..] == [];
  }

  /** The five replacements of `escapeHtml`, each one a character map. */
  function Chain(s: string): string {
    MapChar(MapChar(MapChar(MapChar(MapChar(s, '&', "&amp;"), '<', "&lt;"), '>', "&gt;"), '"', "&quot;"), '\'', "&#039;")
  }

  lemma {:induction false} ChainAppend(a: string, b: string)
    ensures Chain(a + b) == Chain(a) + Chain(b)
  {
    var a1, b1 := MapChar(a, '&', "&amp;"), MapChar(b, '&', "&amp;");
    MapCharAppend(a, b, '&', "&amp;");
    var a2, b2 := MapChar(a1, '<', "&lt;"), MapChar(b1, '<', "&lt;");
    MapCharAppend(a1, b1, '<', "&lt;");
    var a3, b3 := MapChar(a2, '>', "&gt;"), MapChar(b2, '>', "&gt;");
    MapCharAppend(a2, b2, '>', "&gt;");
    var a4, b4 := MapChar(a3, '"', "&quot;"), MapChar(b3, '"', "&quot;");
    MapCharAppend(a3, b3, '"', "&quot;");
    MapCharAppend(a4, b4, '\'', "&#039;");
  }

  /** Each replacement leaves the entities of the earlier ones alone: one character escapes as itself. */
  lemma {:induction false} ChainChar(x: char)
    ensures Chain([x]) == EscapeChar(x)
  {
    if IsSpecial(x) {
      ChainSpecial(x);
    } else {
      MapCharSingle(x, '&', "&amp;");
      MapCharSingle(x, '<', "&lt;");
      MapCharSingle(x, '>', "&gt;");
      MapCharSingle(x, '"', "&quot;");
      MapCharSingle(x, '\'', "&#039;");
    }
  }

  lemma {:induction false} ChainSpecial(x: char)
    requires IsSpecial(x)
    ensures Chain([x]) == EscapeChar(x)
  {
    MapCharSingle(x, '&', "&amp;");
    if x == '&' {
      AmpKept();
    } else {
      MapCharSingle(x, '<', "&lt;");
      if x == '<' {
        LtKept();
      } else {
        MapCharSingle(x, '>', "&gt;");
        if x == '>' {
          GtKept();
        } else {
          MapCharSingle(x, '"', "&quot;");
          if x == '"' {
            QuotKept();
          } else {
            MapCharSingle(x, '\'', "&#039;");
          }
        }
      }
    }
  }

  /** `&amp;` holds none of the characters replaced after `&`. */
  lemma {:induction false} AmpKept()
    ensures MapChar("&amp;", '<', "&lt;") == "&amp;"
    ensures MapChar("&amp;", '>', "&gt;") == "&amp;"
    ensures MapChar("&amp;", '"', "&quot;") == "&amp;"
    ensures MapChar("&amp;", '\'', "&#039;") == "&amp;"
  {
    assert '<' !in "&amp;" && '>' !in "&amp;" && '"' !in "&amp;" && '\'' !in "&amp;";
    MapCharAbsent("&amp;", '<', "&lt;");
    MapCharAbsent("&amp;", '>', "&gt;");
    MapCharAbsent("&amp;", '"', "&quot;");
    MapCharAbsent("&amp;", '\'', "&#039;");
  }

  /** `&lt;` holds none of the characters replaced after `<`. */
  lemma {:induction false} LtKept()
    ensures MapChar("&lt;", '>', "&gt;") == "&lt;"
    ensures MapChar("&lt;", '"', "&quot;") == "&lt;"
    ensures MapChar("&lt;", '\'', "&#039;") == "&lt;"
  {
    assert '>' !in "&lt;" && '"' !in "&lt;" && '\'' !in "&lt;";
    MapCharAbsent("&lt;", '>', "&gt;");
    MapCharAbsent("&lt;", '"', "&quot;");
    MapCharAbsent("&lt;", '\'', "&#039;");
  }

  /** `&gt;` holds none of the characters replaced after `>`. */
  lemma {:induction false} GtKept()
    ensures MapChar("&gt;", '"', "&quot;") == "&gt;"
    ensures MapChar("&gt;", '\'', "&#039;") == "&gt;"
  {
    assert '"' !in "&gt;" && '\'' !in "&gt;";
    MapCharAbsent("&gt;", '"', "&quot;");
    MapCharAbsent("&gt;", '\'', "&#039;");
  }

  /** `&quot;` holds none of the characters replaced after `"`. */
  lemma {:induction false} QuotKept()
    ensures MapChar("&quot;", '\'', "&#039;") == "&quot;"
  {
    assert '\'' !in "&quot;";
    MapCharAbsent("&quot;", '\'', "&#039;");
  }

  lemma {:induction false} ChainIsEscapeChars(s: string)
    ensures Chain(s) == EscapeChars(s)
    decreases |s|
  {
    if s != [] {
      ChainIsEscapeChars(s[1..]);
      assert s == [s[0]] + s[1..];
      ChainAppend([s[0]], s[1..]);
      ChainChar(s[0]);
    }
  }

  /** `escapeHtml` escapes character by character: replacing `&` first keeps the later entities intact. */
  lemma {:induction false} EscapeHtmlPerChar(s: string)
    ensures EscapeHtml(s) == EscapeChars(s)
  {
    ReplaceAllChar(s, '&', "&amp;");
    var m1 := MapChar(s, '&', "&amp;");
    ReplaceAllChar(m1, '<', "&lt;");
    var m2 := MapChar(m1, '<', "&lt;");
    ReplaceAllChar(m2, '>', "&gt;");
    var m3 := MapChar(m2, '>', "&gt;");
    ReplaceAllChar(m3, '"', "&quot;");
    var m4 := MapChar(m3, '"', "&quot;");
    ReplaceAllChar(m4, '\'', "&#039;");
    ChainIsEscapeChars(s);
  }

  lemma {:induction false} NoRawConcat(a: string, b: string)
    requires NoRaw(a) && NoRaw(b)
    ensures NoRaw(a + b)
  {
    forall i | 0 <= i < |a + b| ensures !IsMarkup((a + b)[i]) {
      if i >= |a| {
        assert (a + b)[i] == b[i - |a|];
      }
    }
  }

  lemma {:induction false} EscapeCharsNoRaw(s: string)
    ensures NoRaw(EscapeChars(s))
    decreases |s|
  {
    if s != [] {
      EscapeCharsNoRaw(s[1..]);
      NoRawConcat(EscapeChar(s[0]), EscapeChars(s[1..]));
    }
  }

  lemma {:induction false} EscapeCharsClean(s: string)
    requires forall i :: 0 <= i < |s| ==> !IsSpecial(s[i])
    ensures EscapeChars(s) == s
    decreases |s|
  {
    if s != [] {
      EscapeCharsClean(s[1..]);
      assert s == [s[0]] + s[1..];
    }
  }

  /** An escaped character reads back as itself, whatever follows it. */
  lemma {:induction false} UnescapeCons(x: char, rest: string)
    ensures Unescape(EscapeChar(x) + rest) == [x] + Unescape(rest)
  {
    var t := EscapeChar(x) + rest;
    if x == '&' {
      assert StartsWith(t, "&amp;") by { assert t[..5] == "&amp;"; }
      assert t[5..] == rest;
    } else if x == '<' {
      assert !StartsWith(t, "&amp;") by { assert t[1] == 'l'; }
      assert StartsWith(t, "&lt;") by { assert t[..4] == "&lt;"; }
      assert t[4..] == rest;
    } else if x == '>' {
      assert !StartsWith(t, "&amp;") && !StartsWith(t, "&lt;") by { assert t[1] == 'g'; }
      assert StartsWith(t, "&gt;") by { assert t[..4] == "&gt;"; }
      assert t[4..] == rest;
    } else if x == '"' {
      assert !StartsWith(t, "&amp;") && !StartsWith(t, "&lt;") && !StartsWith(t, "&gt;") by { assert t[1] == 'q'; }
      assert StartsWith(t, "&quot;") by { assert t[..6] == "&quot;"; }
      assert t[6..] == rest;
    } else if x == '\'' {
      assert !StartsWith(t, "&amp;") && !StartsWith(t, "&lt;") && !StartsWith(t, "&gt;") &&
             !StartsWith(t, "&quot;") by { assert t[1] == '#'; }
      assert StartsWith(t, "&#039;") by { assert t[..6] == "&#039;"; }
      assert t[6..] == rest;
    } else {
      assert t[0] == x && t[1..] == rest;
      assert !StartsWith(t, "&amp;") && !StartsWith(t, "&lt;") && !StartsWith(t, "&gt;") &&
             !StartsWith(t, "&quot;") && !StartsWith(t, "&#039;");
    }
  }

  lemma {:induction false} UnescapeEscapeChars(s: string)
    ensures Unescape(EscapeChars(s)) == s
    decreases |s|
  {
    if s != [] {
      UnescapeEscapeChars(s[1..]);
      UnescapeCons(s[0], EscapeChars(s[1..]));
      assert s == [s[0]] + s[1..];
    }
  }

  /**
   * `escapeHtml` leaves no raw `<`, `>`, `"` or `'`, reads back to its input, and returns a
   * string without any of the five characters unchanged.
   */
  lemma {:induction false} EscapeHtmlSafe(s: string)
    ensures NoRaw(EscapeHtml(s))
    ensures Unescape(EscapeHtml(s)) == s
    ensures (forall i :: 0 <= i < |s| ==> !IsSpecial(s[i])) ==> EscapeHtml(s) == s
  {
    EscapeHtmlPerChar(s);
    EscapeCharsNoRaw(s);
    UnescapeEscapeChars(s);
    if forall i :: 0 <= i < |s| ==> !IsSpecial(s[i]) {
      EscapeCharsClean(s);
    }
  }

  // ---------------------------------------------------------------------------
  // Cells: getCellValue and getCellStyle
  // ---------------------------------------------------------------------------

  /**
   * A cell's type and raw value: `b`, `n`, `d`, `s`, `e` and any other type. A number and a date
   * carry the text they are shown as; `Other("")` stands for a falsy raw value.
   */
  datatype CellValue = Bool(b: bool) | Num(shown: string) | DateValue(shown: string) | Str(s: string)
                     | ErrorValue | Other(v: string)

  /** A font: the three flags and the colour's `rgb`, when there is a colour. */
  datatype Font = Font(bold: bool, italic: bool, underline: bool, color: Option<string>)

  /** A fill: the foreground colour's `rgb`, when there is one. */
  datatype Fill = Fill(fgColor: Option<string>)

  /** An alignment; a missing direction is `""`. */
  datatype Alignment = Alignment(horizontal: string, vertical: string)

  /** A cell's `s` object. */
  datatype Style = Style(font: Option<Font>, fill: Option<Fill>, alignment: Option<Alignment>)

  /** A cell: its formatted text `w` when given, its typed value and its style. */
  datatype Cell = Cell(w: Option<string>, value: CellValue, style: Option<Style>)

  /** `getCellValue(cell)`, with a missing cell as `None`. */
  function GetCellValue(cell: Option<Cell>): string {
    if cell.None? then ""
    else if cell.value.w.Some? then EscapeHtml(cell.value.w.value)
    else match cell.value.value
      case Bool(b) => if b then "TRUE" else "FALSE"
      case Num(shown) => shown
      case DateValue(shown) => shown
      case Str(s) => EscapeHtml(s)
      case ErrorValue => "#ERROR!"
      case Other(v) => if v != "" then EscapeHtml(v) else ""
  }

  /**
   * A cell's text is safe to place in an element: no raw markup, unless it is a number or date
   * shown without formatted text, which goes in as shown. Escaped text reads back as the cell's
   * own text.
   */
  lemma {:induction false} CellValueSafe(cell: Option<Cell>)
    ensures cell.None? ==> GetCellValue(cell) == ""
    ensures cell.Some? && cell.value.w.Some? ==> Unescape(GetCellValue(cell)) == cell.value.w.value
    ensures cell.Some? && cell.value.w.None? && cell.value.value.Str? ==>
      Unescape(GetCellValue(cell)) == cell.value.value.s
    ensures (cell.Some? && cell.value.w.None? && (cell.value.value.Num? || cell.value.value.DateValue?) ==>
              NoRaw(cell.value.value.shown)) ==>
            NoRaw(GetCellValue(cell))
  {
    if cell.Some? {
      var c := cell.value;
      if c.w.Some? {
        EscapeHtmlSafe(c.w.value);
      } else if c.value.Str? {
        EscapeHtmlSafe(c.value.s);
      } else if c.value.Other? && c.value.v != "" {
        EscapeHtmlSafe(c.value.v);
      } else if c.value.Bool? || c.value.ErrorValue? {
        var r := GetCellValue(cell);
        forall i | 0 <= i < |r| ensures !IsMarkup(r[i]) {
          assert r == "TRUE" || r == "FALSE" || r == "#ERROR!";
        }
      }
    }
  }

  /** The style properties, in the order `getCellStyle` tries them. */
  datatype Property = Bold | Italic | Underline | Color | Background | TextAlign | VerticalAlign

  const PropertyOrder: seq<Property> := [Bold, Italic, Underline, Color, Background, TextAlign, VerticalAlign]

  /** The style has the property. */
  predicate Applies(st: Style, p: Property) {
    match p
    case Bold => st.font.Some? && st.font.value.bold
    case Italic => st.font.Some? && st.font.value.italic
    case Underline => st.font.Some? && st.font.value.underline
    case Color => st.font.Some? && st.font.value.color.Some?
    case Background => st.fill.Some? && st.fill.value.fgColor.Some?
    case TextAlign => st.alignment.Some? && st.alignment.value.horizontal != ""
    case VerticalAlign => st.alignment.Some? && st.alignment.value.vertical != ""
  }

  /** The CSS declaration of a property the style has. */
  function Css(st: Style, p: Property): string
    requires Applies(st, p)
  {
    match p
    case Bold => "font-weight: bold"
    case Italic => "font-style: italic"
    case Underline => "text-decoration: underline"
    case Color => "color: #" + st.font.value.color.value
    case Background => "background-color: #" + st.fill.value.fgColor.value
    case TextAlign => "text-align: " + st.alignment.value.horizontal
    case VerticalAlign => "vertical-align: " + st.alignment.value.vertical
  }

  /** The declaration list of one property: its declaration when the style has it. */
  function Single(st: Style, p: Property): seq<string> {
    if Applies(st, p) then [Css(st, p)] else []
  }

  /** The declarations of the first `n` properties of `props` that the style has, in `props` order. */
  function Declarations(st: Style, props: seq<Property>, n: nat): seq<string>
    requires n <= |props|
  {
    if n == 0 then [] else Declarations(st, props, n - 1) + Single(st, props[n - 1])
  }

  /** How many of the first `n` properties of `props` the style has. */
  function CountApplying(st: Style, props: seq<Property>, n: nat): nat
    requires n <= |props|
  {
    if n == 0 then 0 else CountApplying(st, props, n - 1) + (if Applies(st, props[n - 1]) then 1 else 0)
  }

  /** `styles.length ? ` style="${styles.join(';')}"` : ''` */
  function Attribute(decls: seq<string>): string {
    if |decls| > 0 then " style=\"" + Join(decls, ";") + "\"" else ""
  }

  /** The `style` attribute, or `""` for no style or no declaration. */
  function StyleAttribute(style: Option<Style>): string {
    if style.None? then "" else Attribute(Declarations(style.value, PropertyOrder, |PropertyOrder|))
  }

  /** The declarations of the fixed order, property by property. */
  lemma {:induction false} DeclarationsOfOrder(st: Style)
    ensures Declarations(st, PropertyOrder, |PropertyOrder|) ==
      Single(st, Bold) + Single(st, Italic) + Single(st, Underline) + Single(st, Color) +
      Single(st, Background) + Single(st, TextAlign) + Single(st, VerticalAlign)
  {
    var ps := PropertyOrder;
    assert Declarations(st, ps, 1) == Single(st, Bold);
    assert Declarations(st, ps, 2) == Declarations(st, ps, 1) + Single(st, Italic);
    assert Declarations(st, ps, 3) == Declarations(st, ps, 2) + Single(st, Underline);
    assert Declarations(st, ps, 4) == Declarations(st, ps, 3) + Single(st, Color);
    assert Declarations(st, ps, 5) == Declarations(st, ps, 4) + Single(st, Background);
    assert Declarations(st, ps, 6) == Declarations(st, ps, 5) + Single(st, TextAlign);
    assert Declarations(st, ps, 7) == Declarations(st, ps, 6) + Single(st, VerticalAlign);
  }

  /** The font block of `getCellStyle`: bold, italic, underline and colour, pushed in that order. */
  method FontStyles(st: Style) returns (styles: seq<string>)
    ensures styles == Declarations(st, PropertyOrder, 4)
  {
    styles := [];
    if st.font.Some? {
      var font := st.font.value;
      if font.bold { styles := styles + ["font-weight: bold"]; }
      assert styles == Declarations(st, PropertyOrder, 1);
      if font.italic { styles := styles + ["font-style: italic"]; }
      assert styles == Declarations(st, PropertyOrder, 2);
      if font.underline { styles := styles + ["text-decoration: underline"]; }
      assert styles == Declarations(st, PropertyOrder, 3);
      if font.color.Some? { styles := styles + ["color: #" + font.color.value]; }
    } else {
      assert Declarations(st, PropertyOrder, 1) == [];
      assert Declarations(st, PropertyOrder, 2) == [];
      assert Declarations(st, PropertyOrder, 3) == [];
    }
  }

  /** The alignment block of `getCellStyle`: horizontal, then vertical, pushed after the others. */
  method AlignmentStyles(st: Style, styles: seq<string>) returns (r: seq<string>)
    requires styles == Declarations(st, PropertyOrder, 5)
    ensures r == Declarations(st, PropertyOrder, 7)
  {
    r := styles;
    if st.alignment.Some? {
      var alignment := st.alignment.value;
      if alignment.horizontal != "" { r := r + ["text-align: " + alignment.horizontal]; }
      assert r == Declarations(st, PropertyOrder, 6);
      if alignment.vertical != "" { r := r + ["vertical-align: " + alignment.vertical]; }
    } else {
      assert Declarations(st, PropertyOrder, 6) == styles;
    }
  }

  /** `getCellStyle(cell)`: the declarations pushed one by one in a fixed order. */
  method GetCellStyle(cell: Cell) returns (r: string)
    ensures r == StyleAttribute(cell.style)
  {
    if cell.style.None? {
      return "";
    }
    var st := cell.style.value;
    var styles := FontStyles(st);
    if st.fill.Some? && st.fill.value.fgColor.Some? {
      styles := styles + ["background-color: #" + st.fill.value.fgColor.value];
    }
    assert styles == Declarations(st, PropertyOrder, 5);
    styles := AlignmentStyles(st, styles);
    r := Attribute(styles);
  }

  /**
   * The declarations are those of the properties the style has, each exactly once and in
   * `props` order: property `i`, when the style has it, comes right after the declarations of
   * the properties before it that the style has.
   */
  lemma {:induction false} DeclarationsAt(st: Style, props: seq<Property>, n: nat)
    requires n <= |props|
    ensures |Declarations(st, props, n)| == CountApplying(st, props, n)
    ensures forall i :: 0 <= i < n && Applies(st, props[i]) ==>
      CountApplying(st, props, i) < |Declarations(st, props, n)| &&
      Declarations(st, props, n)[CountApplying(st, props, i)] == Css(st, props[i])
  {
    if n > 0 {
      DeclarationsAt(st, props, n - 1);
    }
  }

  /** Each property sits at its rank in the fixed order. */
  function Rank(p: Property): (k: nat)
    ensures k < |PropertyOrder| && PropertyOrder[k] == p
  {
    match p
    case Bold => 0
    case Italic => 1
    case Underline => 2
    case Color => 3
    case Background => 4
    case TextAlign => 5
    case VerticalAlign => 6
  }

  /** The attribute is empty exactly when there is no style or the style has none of the properties. */
  lemma {:induction false} StyleAttributeEmpty(style: Option<Style>)
    ensures StyleAttribute(style) == "" <==> style.None? || forall p: Property :: !Applies(style.value, p)
  {
    if style.Some? {
      var st := style.value;
      DeclarationsOfOrder(st);
      var d := Declarations(st, PropertyOrder, |PropertyOrder|);
      assert |d| == |Single(st, Bold)| + |Single(st, Italic)| + |Single(st, Underline)| + |Single(st, Color)| +
                   |Single(st, Background)| + |Single(st, TextAlign)| + |Single(st, VerticalAlign)|;
      forall p: Property | Applies(st, p) ensures |d| > 0 {
        assert |Single(st, p)| == 1;
        assert p == Bold || p == Italic || p == Underline || p == Color || p == Background || p == TextAlign ||
               p == VerticalAlign;
      }
      if |d| > 0 {
        assert StyleAttribute(style)[0] == ' ';
      }
    }
  }

  // ---------------------------------------------------------------------------
  // The table: convertExcelToMarkdown
  // ---------------------------------------------------------------------------

  /** The options; a missing field is `None`. */
  datatype XlsxOptions = XlsxOptions(firstRowAsHeader: Option<bool>, tableClass: Option<string>,
                                     includeStyles: Option<bool>)

  /** The options after their defaults. */
  datatype Settings = Settings(firstRowAsHeader: bool, tableClass: string, includeStyles: bool)

  /** `firstRowAsHeader = true`, `tableClass = 'xlsx-table'`, `includeStyles = false` */
  function SettingsOf(options: XlsxOptions): (s: Settings)
    ensures options.firstRowAsHeader.None? ==> s.firstRowAsHeader
    ensures options.tableClass.None? ==> s.tableClass == "xlsx-table"
    ensures options.includeStyles.None? ==> !s.includeStyles
    ensures options.firstRowAsHeader.Some? ==> s.firstRowAsHeader == options.firstRowAsHeader.value
    ensures options.tableClass.Some? ==> s.tableClass == options.tableClass.value
    ensures options.includeStyles.Some? ==> s.includeStyles == options.includeStyles.value
  {
    Settings(if options.firstRowAsHeader.Some? then options.firstRowAsHeader.value else true,
             if options.tableClass.Some? then options.tableClass.value else "xlsx-table",
             if options.includeStyles.Some? then options.includeStyles.value else false)
  }

  /** A worksheet: its name, its decoded range (inclusive bounds) and its cells by row and column. */
  datatype Sheet = Sheet(name: string, startRow: int, startCol: int, endRow: int, endCol: int,
                         cells: map<(int, int), Cell>)

  /** `worksheet[cellRef]` */
  function CellAt(sheet: Sheet, row: int, col: int): Option<Cell> {
    if (row, col) in sheet.cells then Some(sheet.cells[(row, col)]) else None
  }

  /** One table cell: `<th>` or `<td>`, its style attribute and its text. */
  datatype Element = Element(header: bool, style: string, value: string)

  /** The table cell for a position of the range. */
  function ElementAt(sheet: Sheet, settings: Settings, row: int, col: int): Element {
    var cell := CellAt(sheet, row, col);
    Element(settings.firstRowAsHeader && row == 0,
            if settings.includeStyles && cell.Some? then StyleAttribute(cell.value.style) else "",
            GetCellValue(cell))
  }

  /** The number of indices from `lo` to `hi` inclusive. */
  function Span(lo: int, hi: int): nat {
    if hi < lo then 0 else hi - lo + 1
  }

  /** The sheet's table as a grid: row `i` and column `j` stand for the range's row and column at those offsets. */
  function Grid(sheet: Sheet, settings: Settings): seq<seq<Element>> {
    seq(Span(sheet.startRow, sheet.endRow), i =>
      seq(Span(sheet.startCol, sheet.endCol), j => ElementAt(sheet, settings, sheet.startRow + i, sheet.startCol + j)))
  }

  function RenderCell(e: Element): string {
    if e.header then "<th" + e.style + ">" + e.value + "</th>"
    else "<td" + e.style + ">" + e.value + "</td>"
  }

  function RenderCells(cells: seq<Element>): string
    decreases |cells|
  {
    if cells == [] then "" else RenderCells(cells[..|cells| - 1]) + RenderCell(cells[|cells| - 1])
  }

  function RenderRows(rows: seq<seq<Element>>): string
    decreases |rows|
  {
    if rows == [] then ""
    else RenderRows(rows[..|rows| - 1]) + "<tr>" + RenderCells(rows[|rows| - 1]) + "</tr>"
  }

  function SheetOpen(name: string, tableClass: string): string {
    "<div class=\"sheet\" data-sheet=\"" + name + "\">" + "<table class=\"" + tableClass + "\">"
  }

  const SheetClose := "</table></div>"

  function SheetHtml(sheet: Sheet, settings: Settings): string {
    SheetOpen(sheet.name, settings.tableClass) + RenderRows(Grid(sheet, settings)) + SheetClose
  }

  /** The sheets' tables one after another, in sheet order. */
  function WorkbookHtml(sheets: seq<Sheet>, settings: Settings): string
    decreases |sheets|
  {
    if sheets == [] then "" else WorkbookHtml(sheets[..|sheets| - 1], settings) + SheetHtml(sheets[|sheets| - 1], settings)
  }

  /** The grid cell at offsets `i` and `j` is the table cell of that row and column. */
  lemma {:induction false} GridAt(sheet: Sheet, settings: Settings, i: nat, j: nat)
    requires i < Span(sheet.startRow, sheet.endRow) && j < Span(sheet.startCol, sheet.endCol)
    ensures |Grid(sheet, settings)| == Span(sheet.startRow, sheet.endRow)
    ensures |Grid(sheet, settings)[i]| == Span(sheet.startCol, sheet.endCol)
    ensures Grid(sheet, settings)[i][j] == ElementAt(sheet, settings, sheet.startRow + i, sheet.startCol + j)
  {
  }

  /** The grid cell of a row and column of the range, by absolute position. */
  lemma {:induction false} GridCell(sheet: Sheet, settings: Settings, row: int, col: int)
    requires sheet.startRow <= row <= sheet.endRow && sheet.startCol <= col <= sheet.endCol
    ensures |Grid(sheet, settings)| == Span(sheet.startRow, sheet.endRow)
    ensures |Grid(sheet, settings)[row - sheet.startRow]| == Span(sheet.startCol, sheet.endCol)
    ensures Grid(sheet, settings)[row - sheet.startRow][col - sheet.startCol] == ElementAt(sheet, settings, row, col)
  {
    GridAt(sheet, settings, row - sheet.startRow, col - sheet.startCol);
  }

  /** Row `i` of the grid has a cell for each column of the range. */
  lemma {:induction false} GridRow(sheet: Sheet, settings: Settings, i: nat)
    requires i < Span(sheet.startRow, sheet.endRow)
    ensures |Grid(sheet, settings)| == Span(sheet.startRow, sheet.endRow)
    ensures |Grid(sheet, settings)[i]| == Span(sheet.startCol, sheet.endCol)
  {
  }

  /**
   * The grid has a row for each row of the range and a cell for each column. A cell is a header
   * exactly when headers are on and its absolute row is 0, so a range that starts below row 0
   * has none; styles appear only when they are included and the cell exists.
   */
  lemma {:induction false} GridShape(sheet: Sheet, settings: Settings)
    ensures |Grid(sheet, settings)| == Span(sheet.startRow, sheet.endRow)
    ensures forall i :: 0 <= i < |Grid(sheet, settings)| ==>
      |Grid(sheet, settings)[i]| == Span(sheet.startCol, sheet.endCol)
    ensures forall i, j :: 0 <= i < |Grid(sheet, settings)| && 0 <= j < |Grid(sheet, settings)[i]| ==>
      (Grid(sheet, settings)[i][j].header <==> settings.firstRowAsHeader && sheet.startRow + i == 0)
    ensures forall i, j ::
      (0 <= i < |Grid(sheet, settings)| && 0 <= j < |Grid(sheet, settings)[i]| &&
       (!settings.includeStyles || CellAt(sheet, sheet.startRow + i, sheet.startCol + j).None?)) ==>
      Grid(sheet, settings)[i][j].style == ""
    ensures forall i, j :: 0 <= i < |Grid(sheet, settings)| && 0 <= j < |Grid(sheet, settings)[i]| ==>
      Grid(sheet, settings)[i][j].value == GetCellValue(CellAt(sheet, sheet.startRow + i, sheet.startCol + j))
  {
    var g := Grid(sheet, settings);
    forall i, j | 0 <= i < |g| && 0 <= j < |g[i]|
      ensures g[i][j] == ElementAt(sheet, settings, sheet.startRow + i, sheet.startCol + j)
    {
      GridAt(sheet, settings, i, j);
    }
  }

  lemma {:induction false} RenderCellsStep(cells: seq<Element>, k: nat)
    requires k < |cells|
    ensures RenderCells(cells[..k + 1]) == RenderCells(cells[..k]) + RenderCell(cells[k])
  {
    assert cells[..k + 1][..k] == cells[..k];
  }

  lemma {:induction false} RenderRowsStep(rows: seq<seq<Element>>, k: nat)
    requires k < |rows|
    ensures RenderRows(rows[..k + 1]) == RenderRows(rows[..k]) + "<tr>" + RenderCells(rows[k]) + "</tr>"
  {
    assert rows[..k + 1][..k] == rows[..k];
  }

  lemma {:induction false} WorkbookStep(sheets: seq<Sheet>, settings: Settings, k: nat)
    requires k < |sheets|
    ensures WorkbookHtml(sheets[..k + 1], settings) == WorkbookHtml(sheets[..k], settings) + SheetHtml(sheets[k], settings)
  {
    assert sheets[..k + 1][..k] == sheets[..k];
  }

  lemma {:induction false} AppendAssoc(a: string, b: string, c: string)
    ensures a + (b + c) == (a + b) + c
  {
  }

  /** One pass of the inner loop: the cell's value and style, then its `<th>` or `<td>`. */
  method CellHtml(sheet: Sheet, settings: Settings, row: int, col: int) returns (html: string)
    ensures html == RenderCell(ElementAt(sheet, settings, row, col))
  {
    var cell := CellAt(sheet, row, col);
    var value := GetCellValue(cell);
    var style := "";
    if settings.includeStyles && cell.Some? {
      style := GetCellStyle(cell.value);
    }
    if settings.firstRowAsHeader && row == 0 {
      html := "<th" + style + ">" + value + "</th>";
    } else {
      html := "<td" + style + ">" + value + "</td>";
    }
  }

  /** The inner loop over the columns of one row: the row's cells, left to right. */
  method RowCells(sheet: Sheet, settings: Settings, row: int) returns (html: string)
    requires sheet.startRow <= row <= sheet.endRow
    ensures html == RenderCells(Grid(sheet, settings)[row - sheet.startRow])
  {
    ghost var i := row - sheet.startRow;
    ghost var cells := Grid(sheet, settings)[i];
    GridRow(sheet, settings, i);
    html := "";
    var col := sheet.startCol;
    while col <= sheet.endCol
      invariant sheet.startCol <= col <= sheet.startCol + |cells|
      invariant html == RenderCells(cells[..col - sheet.startCol])
      decreases sheet.endCol - col
    {
      ghost var j := col - sheet.startCol;
      GridCell(sheet, settings, row, col);
      assert cells[j] == ElementAt(sheet, settings, row, col);
      RenderCellsStep(cells, j);
      var piece := CellHtml(sheet, settings, row, col);
      html := html + piece;
      col := col + 1;
    }
    assert cells[..col - sheet.startCol] == cells;
  }

  /** The loop over the rows of one sheet, between the sheet's opening and closing tags. */
  method SheetTable(sheet: Sheet, settings: Settings) returns (html: string)
    ensures html == SheetHtml(sheet, settings)
  {
    ghost var grid := Grid(sheet, settings);
    ghost var open := SheetOpen(sheet.name, settings.tableClass);
    html := SheetOpen(sheet.name, settings.tableClass);
    var row := sheet.startRow;
    while row <= sheet.endRow
      invariant sheet.startRow <= row <= sheet.startRow + |grid|
      invariant html == open + RenderRows(grid[..row - sheet.startRow])
      decreases sheet.endRow - row
    {
      ghost var i := row - sheet.startRow;
      ghost var done := RenderRows(grid[..i]);
      var cells := RowCells(sheet, settings, row);
      html := html + "<tr>" + cells + "</tr>";
      RenderRowsStep(grid, i);
      AppendAssoc(open, done, "<tr>");
      AppendAssoc(open, done + "<tr>", cells);
      AppendAssoc(open, done + "<tr>" + cells, "</tr>");
      row := row + 1;
    }
    assert grid[..row - sheet.startRow] == grid;
    html := html + SheetClose;
  }

  /** `convertExcelToMarkdown(fileBuffer, options)` on the decoded sheets, in `SheetNames` order. */
  method ConvertExcelToMarkdown(sheets: seq<Sheet>, options: XlsxOptions,
                                turndown: string -> Result<string, string>)
    returns (r: Result<string, string>)
    ensures r == ConvertToMarkdown(WorkbookHtml(sheets, SettingsOf(options)), turndown)
  {
    var settings := SettingsOf(options);
    var htmlContent := "";
    for s := 0 to |sheets|
      invariant htmlContent == WorkbookHtml(sheets[..s], settings)
    {
      var table := SheetTable(sheets[s], settings);
      WorkbookStep(sheets, settings, s);
      htmlContent := htmlContent + table;
    }
    assert sheets[..|sheets|] == sheets;
    r := ConvertToMarkdown(htmlContent, turndown);
  }
}
