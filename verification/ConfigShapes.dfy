/** What written configurations mean, shape by shape: escapes in quoted texts and lists of octal, hexadecimal and mixed
    literals: dancex11/configurator/dancex11_config_stream.cpp and dancex11/configurator/dancex11_config_util.h. */
module ConfigShapes {
  import opened Collections
  import opened ConfigLiteral
  import opened ConfigStream

  // ------------------------------------------------------------------ escapes

  /** One character of a quoted text as it can be written; `upper` is the case of hexadecimal digits. */
  datatype Glyph = Plain(c: char) | Backslashed(c: char) | Hex(value: nat, upper: bool) | Octal(value: nat)

  function HexChar(d: nat, upper: bool): char
    requires d < 16
  {
    if d < 10 then ('0' as nat + d) as char
    else if upper then ('A' as nat + d - 10) as char
    else ('a' as nat + d - 10) as char
  }

  function OctalChar(d: nat): char
    requires d < 8
  {
    ('0' as nat + d) as char
  }

  /** A backslash makes a quote or another backslash part of the text, but letters of escapes and digits mean more. */
  predicate ValidGlyph(g: Glyph, quote: char) {
    match g
    case Plain(c) => c != quote && c != '\\'
    case Backslashed(c) => c !in {'x', 'n', 'r', 'f', 't', 'v', 'b', 'a'} && !('0' <= c <= '9')
    case Hex(value, _) => value < 256
    case Octal(value) => value < 512
  }

  function GlyphText(g: Glyph, quote: char): string
    requires ValidGlyph(g, quote)
  {
    match g
    case Plain(c) => [c]
    case Backslashed(c) => ['\\', c]
    case Hex(value, upper) => ['\\', 'x', HexChar(value / 16, upper), HexChar(value % 16, upper)]
    case Octal(value) => ['\\', OctalChar(value / 64), OctalChar(value / 8 % 8), OctalChar(value % 8)]
  }

  /** The character that is meant; an octal number is taken modulo 256. */
  function GlyphChar(g: Glyph): char {
    match g
    case Plain(c) => c
    case Backslashed(c) => c
    case Hex(value, _) => (value % 256) as char
    case Octal(value) => (value % 256) as char
  }

  function GlyphTexts(glyphs: seq<Glyph>, quote: char): string
    requires forall k :: 0 <= k < |glyphs| ==> ValidGlyph(glyphs[k], quote)
  {
    if glyphs == [] then [] else GlyphText(glyphs[0], quote) + GlyphTexts(glyphs[1..], quote)
  }

  function GlyphChars(glyphs: seq<Glyph>): string {
    if glyphs == [] then [] else [GlyphChar(glyphs[0])] + GlyphChars(glyphs[1..])
  }

  lemma LeadingOne(p: char -> bool, c: char, x: string, max: nat)
    requires p(c) && max > 0
    ensures Leading([c] + x, p, max) == [c] + Leading(x, p, max - 1)
  {
    assert ([c] + x)[1..] == x;
  }

  lemma TwoHexDigits(a: char, b: char, x: string)
    requires IsHex(a) && IsHex(b)
    ensures Leading([a, b] + x, IsHex, 2) == [a, b] && HexValue([a, b]) == 16 * HexDigit(a) + HexDigit(b)
  {
    LeadingOne(IsHex, a, [b] + x, 2);
    LeadingOne(IsHex, b, x, 1);
    assert [a, b] + x == [a] + ([b] + x) && [b] + Leading(x, IsHex, 0) == [b];
    assert [a, b][..1] == [a] && [a][..0] == [];
    assert HexValue([a]) == HexDigit(a);
  }

  lemma ThreeDigits(a: char, b: char, c: char, x: string)
    requires IsDigit(a) && IsDigit(b) && IsDigit(c)
    ensures Leading([a, b, c] + x, IsDigit, 3) == [a, b, c]
  {
    LeadingOne(IsDigit, a, [b, c] + x, 3);
    LeadingOne(IsDigit, b, [c] + x, 2);
    LeadingOne(IsDigit, c, x, 1);
    assert [a, b, c] + x == [a] + ([b, c] + x) && [b, c] + x == [b] + ([c] + x);
    assert [a] + ([b] + ([c] + Leading(x, IsDigit, 0))) == [a, b, c];
  }

  lemma OctalOfThree(value: nat)
    requires value < 512
    ensures OctalValue([OctalChar(value / 64), OctalChar(value / 8 % 8), OctalChar(value % 8)], 0) == value
  {
    var a, b, c := OctalChar(value / 64), OctalChar(value / 8 % 8), OctalChar(value % 8);
    assert [a, b, c][1..] == [b, c] && [b, c][1..] == [c] && [c][1..] == [];
    assert OctalValue([c], 8 * (value / 64) + value / 8 % 8) == 8 * (8 * (value / 64) + value / 8 % 8) + value % 8;
    assert OctalValue([b, c], value / 64) == OctalValue([c], 8 * (value / 64) + value / 8 % 8);
  }

  lemma HexChars(value: nat, upper: bool)
    requires value < 256
    ensures var a, b := HexChar(value / 16, upper), HexChar(value % 16, upper);
            IsHex(a) && IsHex(b) && 16 * HexDigit(a) + HexDigit(b) == value
  {
  }

  lemma HexEscape(a: char, b: char, x: string)
    requires IsHex(a) && IsHex(b)
    ensures Escape(['x', a, b] + x) == Escaped(CharOf(16 * HexDigit(a) + HexDigit(b)), x, false)
  {
    hide Leading, HexValue, HexDigit, CharOf;
    var s := ['x', a, b] + x;
    TwoHexDigits(a, b, x);
    assert s[1..] == [a, b] + x && s[3..] == x;
  }

  lemma OctalEscape(a: char, b: char, c: char, x: string)
    requires IsDigit(a) && IsDigit(b) && IsDigit(c)
    ensures Escape([a, b, c] + x) == Escaped(CharOf(OctalValue([a, b, c], 0)), x, false)
  {
    hide Leading, OctalValue, CharOf;
    var s := [a, b, c] + x;
    ThreeDigits(a, b, c, x);
    assert s[3..] == x;
  }

  lemma CharEscape(c: char, x: string)
    requires c !in {'x', 'n', 'r', 'f', 't', 'v', 'b', 'a'} && !('0' <= c <= '9')
    ensures Escape([c] + x) == Escaped(c, x, false)
  {
    assert ([c] + x)[1..] == x;
  }

  /** What follows a backslash. */
  lemma EscapeOf(g: Glyph, quote: char, x: string)
    requires ValidGlyph(g, quote) && !g.Plain?
    ensures GlyphText(g, quote)[0] == '\\'
    ensures Escape(GlyphText(g, quote)[1..] + x) == Escaped(GlyphChar(g), x, false)
  {
    hide Escape, OctalValue, HexChar, OctalChar;
    match g
    case Backslashed(c) =>
      CharEscape(c, x);
      assert GlyphText(g, quote)[1..] == [c];
    case Hex(value, upper) =>
      var a, b := HexChar(value / 16, upper), HexChar(value % 16, upper);
      HexChars(value, upper);
      HexEscape(a, b, x);
      assert GlyphText(g, quote)[1..] == ['x', a, b];
    case Octal(value) =>
      var a, b, c := OctalChar(value / 64), OctalChar(value / 8 % 8), OctalChar(value % 8);
      OctalsAreDigits(value);
      OctalEscape(a, b, c, x);
      OctalOfThree(value);
      assert GlyphText(g, quote)[1..] == [a, b, c];
  }

  lemma OctalsAreDigits(value: nat)
    requires value < 512
    ensures IsDigit(OctalChar(value / 64)) && IsDigit(OctalChar(value / 8 % 8)) && IsDigit(OctalChar(value % 8))
  {
  }

  lemma ReadGlyph(g: Glyph, quote: char, x: string)
    requires ValidGlyph(g, quote)
    ensures Quoted(GlyphText(g, quote) + x, quote) == [GlyphChar(g)] + Quoted(x, quote)
    ensures AfterQuoted(GlyphText(g, quote) + x, quote) == AfterQuoted(x, quote)
  {
    hide Escape;
    var s := GlyphText(g, quote) + x;
    if g.Plain? {
      assert s[1..] == x;
    } else {
      EscapeOf(g, quote, x);
      assert s[0] == '\\' && s[1..] == GlyphText(g, quote)[1..] + x;
    }
  }

  lemma {:induction false} ReadGlyphs(glyphs: seq<Glyph>, quote: char, x: string)
    requires quote != '\\' && forall k :: 0 <= k < |glyphs| ==> ValidGlyph(glyphs[k], quote)
    ensures Quoted(GlyphTexts(glyphs, quote) + ([quote] + x), quote) == GlyphChars(glyphs) + [quote]
    ensures AfterQuoted(GlyphTexts(glyphs, quote) + ([quote] + x), quote) == x
  {
    hide GlyphText, GlyphChar, ValidGlyph;
    if glyphs == [] {
      assert GlyphTexts(glyphs, quote) + ([quote] + x) == [quote] + x && ([quote] + x)[1..] == x;
    } else {
      var rest := GlyphTexts(glyphs[1..], quote) + ([quote] + x);
      assert GlyphTexts(glyphs, quote) + ([quote] + x) == GlyphText(glyphs[0], quote) + rest;
      hide Quoted, AfterQuoted;
      ReadGlyph(glyphs[0], quote, rest);
      ReadGlyphs(glyphs[1..], quote, x);
    }
  }

  /** A quoted text, in whichever way its characters are written, is one token: the characters that are meant. */
  lemma EscapedRoundTrip(glyphs: seq<Glyph>, quote: char, x: string, line: nat, b: char)
    requires IsQuote(quote) && forall k :: 0 <= k < |glyphs| ==> ValidGlyph(glyphs[k], quote)
    ensures Scan([quote] + (GlyphTexts(glyphs, quote) + ([quote] + x)), line, b, false)
         == Scanned([quote] + (GlyphChars(glyphs) + [quote]), ' ', x, line)
  {
    ReadGlyphs(glyphs, quote, x);
    assert ([quote] + (GlyphTexts(glyphs, quote) + ([quote] + x)))[1..] == GlyphTexts(glyphs, quote) + ([quote] + x);
  }

  /** The letters of escapes, each of which is read once more. */
  lemma LetterEscapes(x: string)
    ensures Quoted(['\\', 'n'] + x, '"') == ['\n', 'n'] + Quoted(x, '"')
    ensures Quoted(['\\', 'r'] + x, '"') == ['\r', 'r'] + Quoted(x, '"')
    ensures Quoted(['\\', 't'] + x, '"') == ['\t', 't'] + Quoted(x, '"')
    ensures Quoted(['\\', 'f'] + x, '"') == ['\U{0c}', 'f'] + Quoted(x, '"')
    ensures Quoted(['\\', 'v'] + x, '"') == ['\U{0b}', 'v'] + Quoted(x, '"')
    ensures Quoted(['\\', 'b'] + x, '"') == ['\U{08}', 'b'] + Quoted(x, '"')
    ensures Quoted(['\\', 'a'] + x, '"') == ['\U{07}', 'a'] + Quoted(x, '"')
  {
    hide Quoted;
    LetterIsReadAgain('n', x, '"');
    LetterIsReadAgain('r', x, '"');
    LetterIsReadAgain('t', x, '"');
    LetterIsReadAgain('f', x, '"');
    LetterIsReadAgain('v', x, '"');
    LetterIsReadAgain('b', x, '"');
    LetterIsReadAgain('a', x, '"');
  }

  /** A quoted text that is not closed extends to the end of the input and one character more. */
  lemma {:induction false} UnclosedQuote(text: string, quote: char)
    requires quote !in text && '\\' !in text
    ensures Quoted(text, quote) == text + [EOF_CHAR] && AfterQuoted(text, quote) == []
  {
    if text != [] {
      UnclosedQuote(text[1..], quote);
    }
  }

  /** Where an assignment is expected, '=' ends an identifier; elsewhere it is part of it. */
  lemma AssignmentBreaks(ident: string, x: string, line: nat, b: char)
    requires IsIdentifier(ident) && '=' !in ident
    ensures Scan(ident + (['='] + x), line, b, true) == Scanned(ident, '=', x, line)
  {
    AssignedIdent(ident, x);
    var s := ident + (['='] + x);
    assert s[0] == ident[0] && (|ident| > 1 ==> s[1] == ident[1]) && (|ident| == 1 ==> s[1] == '=');
    assert (['='] + x)[1..] == x;
  }

  lemma {:induction false} AssignedIdent(ident: string, x: string)
    requires forall k :: 0 <= k < |ident| ==> !IsBreak(ident[k], false) && ident[k] != '='
    ensures Ident(ident + (['='] + x), true) == ident && AfterIdent(ident + (['='] + x), true) == ['='] + x
  {
    var s := ident + (['='] + x);
    if ident == [] {
      assert s == ['='] + x;
    } else {
      AssignedIdent(ident[1..], x);
      assert s[1..] == ident[1..] + (['='] + x);
    }
  }

  /** Separators before a token are skipped. */
  lemma SeparatorsSkipped(sep: char, x: string, line: nat, b: char)
    requires sep in {':', ',', '<', '>'}
    ensures Scan([sep] + x, line, b, false) == Scan(x, line, b, false)
  {
    assert ([sep] + x)[1..] == x && SkipSpaces([sep] + x) == [sep] + x;
  }

  // ------------------------------------------------------------------ kinds of literals

  lemma NotBool(t: string)
    requires t != [] && t[0] !in {'t', 'T', 'f', 'F'}
    ensures !EqualIgnoringCase(t, "true") && !EqualIgnoringCase(t, "false")
  {
    assert "true"[0] == 't' && "false"[0] == 'f';
    assert Upper(t[0]) != 'T' && Upper(t[0]) != 'F';
  }

  /** A literal is of the kind that its first characters say. */
  lemma ClassifySays(t: string)
    requires t != [] && t[0] !in {'t', 'T', 'f', 'F'}
    ensures t[0] == '"' ==> Classify(t) == LtStr
    ensures t[0] == '\'' ==> Classify(t) == LtChar
    ensures t[0] == 'x' || t[0] == 'X' ==> Classify(t) == LtHex
    ensures t[0] == '0' && |t| == 1 ==> Classify(t) == LtUint
    ensures t[0] == '0' && |t| > 1 ==>
              Classify(t) == if t[1] == 'x' || t[1] == 'X' then LtUint else if '0' <= t[1] <= '9' then LtOct else Unknown
    ensures t[0] in "+-.123456789" && ('.' in t || 'e' in t || 'E' in t) ==> Classify(t) == LtDec
    ensures t[0] in "+-123456789" && '.' !in t && 'e' !in t && 'E' !in t ==>
              Classify(t) == if t[0] == '-' then LtInt else LtUint
    ensures t[0] !in "\"'xX+-.0123456789" ==> Classify(t) == Unknown
  {
    NotBool(t);
    hide EqualIgnoringCase;
  }

  lemma WordsAreBool()
    ensures Classify("true") == LtBool && Classify("FALSE") == LtBool && Classify("True") == LtBool
  {
    assert |"true"| == |"True"| == 4 && |"FALSE"| == |"false"| == 5;
  }

  // ------------------------------------------------------------------ lists

  function OctalDigits(n: nat): string {
    if n < 8 then [OctalChar(n)] else OctalDigits(n / 8) + [OctalChar(n % 8)]
  }

  function PrintOctal(n: nat): string {
    ['0'] + OctalDigits(n)
  }

  lemma {:induction false} OctalShape(n: nat)
    ensures OctalDigits(n) != [] && forall k :: 0 <= k < |OctalDigits(n)| ==> '0' <= OctalDigits(n)[k] <= '7'
  {
    if n >= 8 {
      OctalShape(n / 8);
    }
  }

  lemma {:induction false} NumberOfOctal(n: nat)
    ensures NumberFrom(OctalDigits(n), 8, 0) == n
  {
    OctalShape(n);
    if n < 8 {
      assert OctalDigits(n)[1..] == [];
    } else {
      OctalShape(n / 8);
      NumberOfOctal(n / 8);
      NumberAppend(OctalDigits(n / 8), OctalChar(n % 8), 8, 0);
    }
  }

  lemma OctalCharacters(n: nat)
    ensures var t := PrintOctal(n);
            |t| >= 2 && t[0] == '0' && t[1..] == OctalDigits(n) && forall k :: 0 <= k < |t| ==> '0' <= t[k] <= '7'
  {
    OctalShape(n);
  }

  lemma OctalMember(n: nat)
    ensures IsMember(PrintOctal(n))
  {
    var t := PrintOctal(n);
    OctalCharacters(n);
    hide PrintOctal;
    NoKeyword(t);
    hide IsText;
  }

  lemma OctalIsOctal(n: nat)
    ensures PrintOctal(n) != [] && Classify(PrintOctal(n)) == LtOct
  {
    OctalCharacters(n);
    ClassifySays(PrintOctal(n));
    hide Classify, PrintOctal;
  }

  lemma OctalParses(n: nat)
    ensures ParseUnsigned(PrintOctal(n), 8) == if n >= TWO64 then TWO64 - 1 else n
  {
    var t := PrintOctal(n);
    OctalCharacters(n);
    NumberOfOctal(n);
    hide PrintOctal, OctalDigits;
    assert DigitOf('0') == 0 && NumberFrom(t, 8, 0) == NumberFrom(t[1..], 8, 0);
  }

  function OctalTexts(ns: seq<nat>): seq<string> {
    seq(|ns|, k requires 0 <= k < |ns| => PrintOctal(ns[k]))
  }

  /** A list of octal literals is loaded back exactly when they have 64 bits. */
  lemma OctalListRoundTrip(ns: seq<nat>, x: string, line: nat, b: char)
    requires ns != []
    ensures var c := Scan(ListText(OctalTexts(ns), x), line, b, false);
            c.token != [] && (LoadList(c) == UInt64s(ns) <==> AllWithin(ns, 0, TWO64))
  {
    hide Scan, LoadList, PrintOctal, IsMember, Classify, Unsigned, ParseUnsigned;
    var texts := OctalTexts(ns);
    forall k | 0 <= k < |ns|
      ensures IsMember(texts[k]) && texts[k] != [] && Classify(texts[k]) == LtOct
      ensures ParseUnsigned(texts[k], 8) == ns[k] <==> 0 <= ns[k] < TWO64
    {
      OctalMember(ns[k]);
      OctalIsOctal(ns[k]);
      OctalParses(ns[k]);
    }
    ListLoads(texts, x, line, b);
    ConvertedAt(texts, 8);
  }

  lemma SeventeenIsFifteen(x: string, line: nat, b: char)
    ensures var c := Scan("[017]" + x, line, b, false); c.token != [] && LoadList(c) == UInt64s([15])
  {
    hide Scan, LoadList;
    OctalListRoundTrip([15], x, line, b);
    var text := ['0', '1', '7'];
    assert OctalDigits(15) == OctalDigits(1) + ['7'] && OctalDigits(1) == ['1'];
    assert PrintOctal(15) == text;
    assert OctalTexts([15]) == [text];
    assert ListText([text], x) == ['['] + (text + ([']'] + x)) == "[017]" + x;
  }

  /** What each member of a printed list becomes: the first one decides between signed and unsigned numbers; what does
      not fit becomes the nearest number, but a negative number wraps among unsigned ones. */
  lemma PrintedListValues(ns: seq<int>, x: string, line: nat, b: char) returns (vs: seq<int>)
    requires ns != []
    ensures var c := Scan(PrintList(ns, x), line, b, false);
            c.token != [] && LoadList(c) == if ns[0] < 0 then Int64s(vs) else UInt64s(vs)
    ensures |vs| == |ns|
    ensures ns[0] < 0 ==> forall k :: 0 <= k < |ns| ==>
                            vs[k] == if ns[k] < -TWO63 then -TWO63 else if ns[k] >= TWO63 then TWO63 - 1 else ns[k]
    ensures ns[0] >= 0 ==> forall k :: 0 <= k < |ns| ==>
                             vs[k] == if ns[k] <= -TWO64 || ns[k] >= TWO64 then TWO64 - 1
                                      else if ns[k] < 0 then TWO64 + ns[k] else ns[k]
  {
    hide Scan, PrintInt, LoadList, Texts, Signed, Unsigned, ParseSigned, ParseUnsigned;
    PrintedListLoads(ns, x, line, b);
    TextsAt(ns);
    ConvertedAt(Texts(ns), 10);
    vs := if ns[0] < 0 then Signed(Texts(ns)) else Unsigned(Texts(ns), 10);
    forall k | 0 <= k < |ns|
      ensures ns[0] < 0 ==> vs[k] == ParseSigned(PrintInt(ns[k]))
      ensures ns[0] >= 0 ==> vs[k] == ParseUnsigned(PrintInt(ns[k]), 10)
    {
    }
    forall k | 0 <= k < |ns|
      ensures ParseSigned(PrintInt(ns[k])) == if ns[k] < -TWO63 then -TWO63 else if ns[k] >= TWO63 then TWO63 - 1 else ns[k]
      ensures ParseUnsigned(PrintInt(ns[k]), 10) == if ns[k] <= -TWO64 || ns[k] >= TWO64 then TWO64 - 1
                                                    else if ns[k] < 0 then TWO64 + ns[k] else ns[k]
    {
      ParsePrinted(ns[k]);
    }
  }

  /** Hexadecimal members that begin with "0x" are loaded as zero: they are read up to the letter. */
  lemma HexListIsZero(texts: seq<string>, x: string, line: nat, b: char)
    requires texts != [] && forall k :: 0 <= k < |texts| ==> IsMember(texts[k]) && StartsHex(texts[k])
    ensures var c := Scan(ListText(texts, x), line, b, false);
            c.token != [] && LoadList(c) == UInt64s(seq(|texts|, k => 0))
  {
    hide Scan, LoadList, IsMember, Unsigned;
    MemberNotBracket(texts[0]);
    ClassifySays(texts[0]);
    forall k | 0 <= k < |texts|
      ensures ParseUnsigned(texts[k], 10) == 0
    {
      ZeroUpToLetter(texts[k]);
    }
    ListLoads(texts, x, line, b);
    ConvertedAt(texts, 10);
    assert Unsigned(texts, 10) == seq(|texts|, k => 0);
  }

  lemma ZeroUpToLetter(t: string)
    requires StartsHex(t)
    ensures ParseUnsigned(t, 10) == 0
  {
    assert !IsDigit(t[1]) && t[1..][0] == t[1];
    assert NumberFrom(t, 10, 0) == NumberFrom(t[1..], 10, 0) == 0;
  }

  /** A list of integers that is not closed fails. */
  lemma UnclosedListFails(t: string, line: nat, b: char)
    requires IsMember(t) && t != [] && Classify(t) in {LtInt, LtUint, LtOct}
    ensures var c := Scan(['['] + t, line, b, false); c.token != [] && LoadList(c) == Failed
  {
    hide Classify, IsMember, Signed, Unsigned, IsText, Scan;
    MemberNotBracket(t);
    ScanBracket('[', t, line, b);
    var c := Scan(['['] + t, line, b, false);
    var n := Next(c);
    ScanLast(t, c.line, c.breakChar);
    assert Members(n) == ([t], Next(n));
    assert ParseLiteralType(n) == (LiteralType(Classify(t), false), n);
    hide Members;
    assert ParseLiteralType(c) == (LiteralType(Classify(t), true), n);
    hide ParseLiteralType;
  }

  lemma ScanLast(t: string, line: nat, b: char)
    requires IsMember(t)
    ensures var n := Scan(t, line, b, false);
            && n.token == t && !IsText(Next(n).token) && Next(n).token != "]"
  {
    hide IsText;
    IdentOf(t, []);
    assert t + [] == t;
    assert SkipSpaces([]) == [];
    var n := Scan(t, line, b, false);
    NothingLeft(n.line, n.breakChar, false);
    EmptyIsNoText();
  }

  lemma EmptyIsNoText()
    ensures !IsText([])
  {
  }
}
