/** The tokenizer of configurations: dancex11/configurator/dancex11_config_stream.cpp. */
module ConfigStream {
  import opened Collections

  predicate IsSpace(c: char) {
    c in {' ', '\t', '\n', '\r', '\U{0b}', '\U{0c}'}
  }

  predicate IsBreak(c: char, breakOnAsgn: bool) {
    IsSpace(c) || c in {':', '[', ']', ',', '<', '>'} || (breakOnAsgn && c == '=')
  }

  predicate IsDigit(c: char) {
    '0' <= c <= '9'
  }

  predicate IsHex(c: char) {
    IsDigit(c) || 'a' <= c <= 'f' || 'A' <= c <= 'F'
  }

  /** What becomes of the end-of-file value when it is appended to a token. */
  const EOF_CHAR := '\U{ff}'

  // ------------------------------------------------------------------ the parts of a token, on strings

  function Newline(c: char): nat {
    if c == '\n' then 1 else 0
  }

  function SkipSpaces(s: string): string {
    if s != [] && IsSpace(s[0]) then SkipSpaces(s[1..]) else s
  }

  /** The line breaks among the leading whitespace. */
  function SpaceLines(s: string): nat {
    if s != [] && IsSpace(s[0]) then Newline(s[0]) + SpaceLines(s[1..]) else 0
  }

  /** What follows the first line break. */
  function AfterLine(s: string): string {
    if s == [] then [] else if s[0] == '\n' then s[1..] else AfterLine(s[1..])
  }

  function Ident(s: string, breakOnAsgn: bool): string {
    if s != [] && !IsBreak(s[0], breakOnAsgn) then [s[0]] + Ident(s[1..], breakOnAsgn) else []
  }

  function AfterIdent(s: string, breakOnAsgn: bool): string {
    if s != [] && !IsBreak(s[0], breakOnAsgn) then AfterIdent(s[1..], breakOnAsgn) else s
  }

  function HexDigit(c: char): nat
    requires IsHex(c)
  {
    if IsDigit(c) then c as nat - '0' as nat
    else if 'a' <= c then c as nat - 'a' as nat + 10
    else c as nat - 'A' as nat + 10
  }

  /** The octal number that leads the digits; zero if there is none. */
  function OctalValue(digits: string, value: nat): nat {
    if digits != [] && '0' <= digits[0] <= '7' then OctalValue(digits[1..], 8 * value + (digits[0] as nat - '0' as nat))
    else value
  }

  function CharOf(value: nat): char {
    (value % 256) as char
  }

  /** Up to `max` leading characters with the property. */
  function Leading(s: string, p: char -> bool, max: nat): (r: string)
    ensures r <= s && |r| <= max && forall i :: 0 <= i < |r| ==> p(r[i])
  {
    if max > 0 && s != [] && p(s[0]) then [s[0]] + Leading(s[1..], p, max - 1) else []
  }

  /** The character an escape stands for, what follows it, and whether the end of the file was seen.  The letter of
      an escape like \n is not consumed. */
  datatype Escaped = Escaped(c: char, rest: string, eof: bool)

  function LetterEscape(c: char): Option<char> {
    if c == 'n' then Some('\n')
    else if c == 'r' then Some('\r')
    else if c == 'f' then Some('\U{0c}')
    else if c == 't' then Some('\t')
    else if c == 'v' then Some('\U{0b}')
    else if c == 'b' then Some('\U{08}')
    else if c == 'a' then Some('\U{07}')
    else None
  }

  function HexValue(digits: string): nat
    requires forall i :: 0 <= i < |digits| ==> IsHex(digits[i])
  {
    if digits == [] then 0 else 16 * HexValue(digits[..|digits| - 1]) + HexDigit(digits[|digits| - 1])
  }

  /** `s` is what follows the backslash. */
  function Escape(s: string): (e: Escaped)
    ensures |e.rest| <= |s| && (e.eof ==> e.rest == [])
  {
    if s == [] then Escaped(EOF_CHAR, [], true)
    else if s[0] == 'x' then
      var digits := Leading(s[1..], IsHex, 2);
      Escaped(CharOf(HexValue(digits)), s[1 + |digits|..], |digits| < 2 && |s| == 1 + |digits|)
    else if LetterEscape(s[0]).Some? then Escaped(LetterEscape(s[0]).value, s, false)
    else if IsDigit(s[0]) then
      var digits := Leading(s, IsDigit, 3);
      Escaped(CharOf(OctalValue(digits, 0)), s[|digits|..], |digits| < 3 && |s| == |digits|)
    else Escaped(s[0], s[1..], false)
  }

  /** The rest of a quoted token up to and with the closing quote. */
  function Quoted(s: string, quote: char): string
    decreases |s|
  {
    if s == [] then [EOF_CHAR]
    else if s[0] == '\\' then
      var e := Escape(s[1..]);
      [e.c] + if e.eof then [] else Quoted(e.rest, quote)
    else [s[0]] + if s[0] == quote then [] else Quoted(s[1..], quote)
  }

  function AfterQuoted(s: string, quote: char): string
    decreases |s|
  {
    if s == [] then []
    else if s[0] == '\\' then
      var e := Escape(s[1..]);
      if e.eof then e.rest else AfterQuoted(e.rest, quote)
    else if s[0] == quote then s[1..]
    else AfterQuoted(s[1..], quote)
  }

  // ------------------------------------------------------------------ next_token, on strings

  datatype Scanned = Scanned(token: string, breakChar: char, rest: string, line: nat)

  predicate StartsComment(s: string) {
    s != [] && (s[0] == '#' || (s[0] == '/' && |s| > 1 && s[1] == '/'))
  }

  predicate IsQuote(c: char) {
    c == '\'' || c == '"'
  }

  lemma {:induction false} Shorter(s: string)
    ensures |SkipSpaces(s)| <= |s|
    ensures s != [] ==> |AfterLine(s)| < |s|
  {
    if s != [] {
      Shorter(s[1..]);
    }
  }

  function Scan(s: string, line: nat, breakChar: char, breakOnAsgn: bool): Scanned
    decreases |s|
  {
    var t, ln := SkipSpaces(s), line + SpaceLines(s);
    Shorter(s);
    if t == [] then Scanned([], breakChar, [], ln)
    else if StartsComment(t) then
      Shorter(t);
      Scan(AfterLine(t), ln + 1, breakChar, breakOnAsgn)
    else if IsQuote(t[0]) then Scanned([t[0]] + Quoted(t[1..], t[0]), ' ', AfterQuoted(t[1..], t[0]), ln)
    else if t[0] == '[' || t[0] == ']' then Scanned([t[0]], ' ', t[1..], ln)
    else if IsBreak(t[0], breakOnAsgn) then Scan(t[1..], ln, breakChar, breakOnAsgn)
    else
      var after := AfterIdent(t, breakOnAsgn);
      var u := SkipSpaces(after);
      var ends := u != [] && IsBreak(u[0], breakOnAsgn) && u[0] != '[' && u[0] != ']';
      Scanned(Ident(t, breakOnAsgn), if ends then u[0] else ' ', if ends then u[1..] else u, ln + SpaceLines(after))
  }

  // ------------------------------------------------------------------ the class

  class ConfigStream {
    /** What has not been read yet. */
    var rest: string
    /** Set once the end of the input was looked at. */
    var eof: bool
    var line: nat
    var breakChar: char

    constructor (input: string)
      ensures rest == input && !eof && line == 0 && breakChar == '\0'
    {
      rest, eof, line, breakChar := input, false, 0, '\0';
    }

    ghost predicate Valid()
      reads this
    {
      eof ==> rest == []
    }

    method Peek() returns (c: Option<char>)
      requires Valid()
      modifies this`eof
      ensures Valid()
      ensures c == if rest == [] then None else Some(rest[0])
      ensures eof == (old(eof) || rest == [])
    {
      if rest == [] {
        eof := true;
        return None;
      }
      c := Some(rest[0]);
    }

    method Get() returns (c: Option<char>)
      requires Valid()
      modifies this`rest, this`eof
      ensures Valid()
      ensures c == if old(rest) == [] then None else Some(old(rest)[0])
      ensures rest == if old(rest) == [] then [] else old(rest)[1..]
      ensures eof == (old(eof) || old(rest) == [])
    {
      if rest == [] {
        eof := true;
        return None;
      }
      c := Some(rest[0]);
      rest := rest[1..];
    }

    method SkipWhitespace() returns (c: Option<char>)
      requires Valid()
      modifies this`rest, this`eof, this`line
      ensures Valid()
      ensures rest == SkipSpaces(old(rest)) && line == old(line) + SpaceLines(old(rest))
      ensures c == if rest == [] then None else Some(rest[0])
      ensures c.None? ==> eof
    {
      c := Peek();
      while c.Some? && IsSpace(c.value)
        invariant Valid() && c == if rest == [] then None else Some(rest[0])
        invariant c.None? ==> eof
        invariant SkipSpaces(rest) == SkipSpaces(old(rest))
        invariant line + SpaceLines(rest) == old(line) + SpaceLines(old(rest))
        decreases |rest|
      {
        if c.value == '\n' {
          line := line + 1;
        }
        var _ := Get();
        c := Peek();
      }
    }

    /** std::getline, whose result is discarded. */
    method DiscardLine()
      requires Valid()
      modifies this`rest, this`eof
      ensures Valid() && rest == AfterLine(old(rest))
    {
      var c := Get();
      while c.Some? && c.value != '\n'
        invariant Valid()
        invariant c.Some? && c.value != '\n' ==> AfterLine(rest) == AfterLine(old(rest))
        invariant c.None? || c.value == '\n' ==> rest == AfterLine(old(rest))
        decreases |rest|, c.Some?
      {
        c := Get();
      }
    }

    /** Up to `max` characters with the property; looking for one more may meet the end of the input. */
    method DigitRun(p: char -> bool, max: nat) returns (digits: string)
      requires Valid() && !eof
      modifies this`rest, this`eof
      ensures Valid()
      ensures digits == Leading(old(rest), p, max) && rest == old(rest)[|digits|..]
      ensures eof <==> |digits| < max && rest == []
    {
      hide Leading;
      digits := [];
      while |digits| < max
        invariant !eof && |digits| <= max && |digits| <= |old(rest)| && rest == old(rest)[|digits|..]
        invariant digits + Leading(rest, p, max - |digits|) == Leading(old(rest), p, max)
      {
        LeadingStep(rest, p, max - |digits|, digits);
        var c := Peek();
        if c.None? || !p(c.value) {
          return;
        }
        digits := digits + [c.value];
        var _ := Get();
      }
      LeadingStep(rest, p, 0, digits);
    }

    method GetEscape() returns (c: char)
      requires Valid() && !eof && rest != []
      modifies this`rest, this`eof
      ensures Valid()
      ensures Escaped(c, rest, eof) == Escape(old(rest)[1..])
    {
      var _ := Get();
      var next := Peek();
      if next == None {
        return EOF_CHAR;
      }
      if next == Some('x') {
        var _ := Get();
        var digits := DigitRun(IsHex, 2);
        return CharOf(HexValue(digits));
      }
      if LetterEscape(next.value).Some? {
        return LetterEscape(next.value).value;
      }
      if IsDigit(next.value) {
        var _ := Get();
        var digits := DigitRun(IsDigit, 2);
        LeadingStep(old(rest)[1..], IsDigit, 3, []);
        return CharOf(OctalValue([next.value] + digits, 0));
      }
      var _ := Get();
      c := next.value;
    }

    /** The loop over a quoted token, after its opening quote. */
    method QuotedToken(quote: char) returns (token: string)
      requires Valid() && !eof
      modifies this`rest, this`eof
      ensures Valid()
      ensures token == Quoted(old(rest), quote) && rest == AfterQuoted(old(rest), quote)
    {
      hide Quoted, AfterQuoted, Escape;
      token := [];
      var closed := false;
      while !eof && !closed
        invariant Valid()
        invariant Quoted(old(rest), quote) == token + if eof || closed then [] else Quoted(rest, quote)
        invariant AfterQuoted(old(rest), quote) == if eof || closed then rest else AfterQuoted(rest, quote)
        decreases |rest|, !eof && !closed
      {
        QuotedStep(rest, quote, token);
        var c := Peek();
        if c == Some('\\') {
          var escaped := GetEscape();
          token := token + [escaped];
        } else {
          c := Get();
          token := token + [if c.Some? then c.value else EOF_CHAR];
          closed := c == Some(quote);
        }
      }
    }

    method IdentToken(breakOnAsgn: bool) returns (token: string)
      requires Valid() && rest != [] && !IsBreak(rest[0], breakOnAsgn)
      modifies this`rest, this`eof
      ensures Valid()
      ensures token == Ident(old(rest), breakOnAsgn) && rest == AfterIdent(old(rest), breakOnAsgn)
    {
      token := [];
      var c := Some(rest[0]);
      while c.Some? && !IsBreak(c.value, breakOnAsgn)
        invariant Valid() && c == if rest == [] then None else Some(rest[0])
        invariant token + Ident(rest, breakOnAsgn) == Ident(old(rest), breakOnAsgn)
        invariant AfterIdent(rest, breakOnAsgn) == AfterIdent(old(rest), breakOnAsgn)
        decreases |rest|
      {
        token := token + [c.value];
        var _ := Get();
        c := Peek();
      }
    }

    method NextToken(breakOnAsgn: bool) returns (token: string)
      requires Valid()
      modifies this
      ensures Valid()
      ensures Scanned(token, breakChar, rest, line) == Scan(old(rest), old(line), old(breakChar), breakOnAsgn)
    {
      hide Ident, AfterIdent, Quoted, AfterQuoted, AfterLine, SkipSpaces, SpaceLines;
      while !eof
        invariant Valid()
        invariant Scan(rest, line, breakChar, breakOnAsgn) == Scan(old(rest), old(line), old(breakChar), breakOnAsgn)
        decreases |rest|, !eof
      {
        Shorter(rest);
        var c := SkipWhitespace();
        Shorter(rest);
        if c.None? {
          return [];
        }
        if StartsComment(rest) {
          // reads on from the first of two slashes, which is taken back if there is no second one
          DiscardLine();
          line := line + 1;
        } else if IsQuote(c.value) {
          var _ := Get();
          token := QuotedToken(c.value);
          token := [c.value] + token;
          breakChar := ' ';
          return;
        } else if c.value == '[' || c.value == ']' {
          var _ := Get();
          breakChar := ' ';
          return [c.value];
        } else if IsBreak(c.value, breakOnAsgn) {
          var _ := Get();
        } else {
          token := IdentToken(breakOnAsgn);
          c := SkipWhitespace();
          if c.Some? && IsBreak(c.value, breakOnAsgn) && c.value != '[' && c.value != ']' {
            var _ := Get();
            breakChar := c.value;
          } else {
            breakChar := ' ';
          }
          return;
        }
      }
      NothingLeft(line, breakChar, breakOnAsgn);
      token := [];
    }
  }

  lemma NothingLeft(line: nat, breakChar: char, breakOnAsgn: bool)
    ensures Scan([], line, breakChar, breakOnAsgn) == Scanned([], breakChar, [], line)
  {
  }

  lemma LeadingStep(s: string, p: char -> bool, max: nat, before: string)
    ensures max > 0 && s != [] && p(s[0]) ==>
              && before + Leading(s, p, max) == before + [s[0]] + Leading(s[1..], p, max - 1)
              && Leading(s, p, max) == [s[0]] + Leading(s[1..], p, max - 1)
    ensures max == 0 || s == [] || !p(s[0]) ==> before + Leading(s, p, max) == before && Leading(s, p, max) == []
  {
  }

  lemma QuotedStep(s: string, quote: char, before: string)
    ensures s == [] ==> before + Quoted(s, quote) == before + [EOF_CHAR] && AfterQuoted(s, quote) == []
    ensures s != [] && s[0] == '\\' ==>
              var e := Escape(s[1..]);
              && |e.rest| < |s|
              && before + Quoted(s, quote) == before + [e.c] + (if e.eof then [] else Quoted(e.rest, quote))
              && AfterQuoted(s, quote) == if e.eof then e.rest else AfterQuoted(e.rest, quote)
    ensures s != [] && s[0] != '\\' ==>
              && before + Quoted(s, quote) == before + [s[0]] + (if s[0] == quote then [] else Quoted(s[1..], quote))
              && AfterQuoted(s, quote) == if s[0] == quote then s[1..] else AfterQuoted(s[1..], quote)
  {
    hide Escape;
  }

  // ------------------------------------------------------------------ printed configurations

  /** Whitespace and comment lines between tokens. */
  datatype GapItem = Space(c: char) | Hash(text: string) | Slashes(text: string)

  function ItemText(g: GapItem): string {
    match g
    case Space(c) => [c]
    case Hash(text) => ['#'] + (text + ['\n'])
    case Slashes(text) => ['/', '/'] + (text + ['\n'])
  }

  function ItemLines(g: GapItem): nat {
    if g.Space? then Newline(g.c) else 1
  }

  predicate ValidItem(g: GapItem) {
    if g.Space? then IsSpace(g.c) else '\n' !in g.text
  }

  function GapText(gap: seq<GapItem>): string {
    if gap == [] then [] else ItemText(gap[0]) + GapText(gap[1..])
  }

  function GapLines(gap: seq<GapItem>): nat {
    if gap == [] then 0 else ItemLines(gap[0]) + GapLines(gap[1..])
  }

  /** The line breaks among the whitespace at the beginning of a gap. */
  function LeadLines(gap: seq<GapItem>): nat {
    if gap != [] && gap[0].Space? then Newline(gap[0].c) + LeadLines(gap[1..]) else 0
  }

  predicate ValidGap(gap: seq<GapItem>) {
    forall k :: 0 <= k < |gap| ==> ValidItem(gap[k])
  }

  function DropSpaces(gap: seq<GapItem>): seq<GapItem> {
    if gap != [] && gap[0].Space? then DropSpaces(gap[1..]) else gap
  }

  /** An identifier, whitespace, the separator that ends it, and what comes before the next identifier. */
  datatype Piece = Piece(ident: string, ws: string, sep: char, gap: seq<GapItem>)

  predicate IsIdentifier(s: string) {
    && s != [] && (forall k :: 0 <= k < |s| ==> !IsBreak(s[k], false))
    && !IsQuote(s[0]) && !StartsComment(s)
  }

  predicate ValidPiece(p: Piece) {
    && IsIdentifier(p.ident) && (forall k :: 0 <= k < |p.ws| ==> IsSpace(p.ws[k]))
    && p.sep in {' ', ':', ',', '<', '>'} && ValidGap(p.gap)
  }

  function Print(lead: seq<GapItem>, pieces: seq<Piece>): string
    decreases |pieces|
  {
    GapText(lead)
    + if pieces == [] then []
      else pieces[0].ident + (pieces[0].ws + ([pieces[0].sep] + Print(pieces[0].gap, pieces[1..])))
  }

  function SpaceCount(ws: string): nat {
    if ws == [] then 0 else Newline(ws[0]) + SpaceCount(ws[1..])
  }

  /** The line breaks of a whole text. */
  function PrintLines(lead: seq<GapItem>, pieces: seq<Piece>): nat
    decreases |pieces|
  {
    GapLines(lead) + if pieces == [] then 0 else SpaceCount(pieces[0].ws) + PrintLines(pieces[0].gap, pieces[1..])
  }

  // ------------------------------------------------------------------ reading what was printed

  lemma {:induction false} Shrinks(s: string, line: nat, b: char, asgn: bool)
    ensures Scan(s, line, b, asgn).token != [] ==> |Scan(s, line, b, asgn).rest| < |s|
    decreases |s|
  {
    var t, ln := SkipSpaces(s), line + SpaceLines(s);
    Shorter(s);
    if t != [] {
      Shorter(t);
      if StartsComment(t) {
        Shrinks(AfterLine(t), ln + 1, b, asgn);
      } else if IsQuote(t[0]) {
        QuotedShorter(t[1..], t[0]);
      } else if t[0] == '[' || t[0] == ']' {
      } else if IsBreak(t[0], asgn) {
        Shrinks(t[1..], ln, b, asgn);
      } else {
        IdentShorter(t[1..], asgn);
        Shorter(AfterIdent(t, asgn));
      }
    }
  }

  lemma {:induction false} QuotedShorter(s: string, quote: char)
    ensures |AfterQuoted(s, quote)| <= |s|
    decreases |s|
  {
    if s != [] {
      if s[0] == '\\' {
        QuotedShorter(Escape(s[1..]).rest, quote);
      } else {
        QuotedShorter(s[1..], quote);
      }
    }
  }

  lemma {:induction false} IdentShorter(s: string, asgn: bool)
    ensures |AfterIdent(s, asgn)| <= |s|
  {
    if s != [] {
      IdentShorter(s[1..], asgn);
    }
  }

  lemma {:induction false} AfterLineOf(text: string, x: string)
    requires '\n' !in text
    ensures AfterLine(text + (['\n'] + x)) == x
  {
    if text == [] {
      assert text + (['\n'] + x) == ['\n'] + x;
    } else {
      AfterLineOf(text[1..], x);
      assert (text + (['\n'] + x))[1..] == text[1..] + (['\n'] + x);
    }
  }

  lemma ScanHash(text: string, x: string, line: nat, b: char)
    requires '\n' !in text
    ensures Scan(['#'] + (text + (['\n'] + x)), line, b, false) == Scan(x, line + 1, b, false)
  {
    var s := ['#'] + (text + (['\n'] + x));
    assert s[1..] == text + (['\n'] + x);
    AfterLineOf(text, x);
    assert AfterLine(s) == AfterLine(s[1..]);
  }

  lemma ScanSlashes(text: string, x: string, line: nat, b: char)
    requires '\n' !in text
    ensures Scan(['/', '/'] + (text + (['\n'] + x)), line, b, false) == Scan(x, line + 1, b, false)
  {
    var s := ['/', '/'] + (text + (['\n'] + x));
    assert s[1..] == ['/'] + (text + (['\n'] + x));
    assert s[1..][1..] == text + (['\n'] + x);
    AfterLineOf(text, x);
    assert AfterLine(s) == AfterLine(s[1..]) == AfterLine(s[1..][1..]);
    assert SkipSpaces(s) == s && StartsComment(s);
  }

  lemma ScanItem(g: GapItem, x: string, line: nat, b: char)
    requires ValidItem(g)
    ensures Scan(ItemText(g) + x, line, b, false) == Scan(x, line + ItemLines(g), b, false)
  {
    if g.Space? {
      assert ([g.c] + x)[1..] == x;
    } else if g.Hash? {
      hide Scan;
      ScanHash(g.text, x, line, b);
      assert ItemText(g) + x == ['#'] + (g.text + (['\n'] + x));
    } else {
      hide Scan;
      ScanSlashes(g.text, x, line, b);
      assert ItemText(g) + x == ['/', '/'] + (g.text + (['\n'] + x));
    }
  }

  lemma {:induction false} ScanGap(gap: seq<GapItem>, x: string, line: nat, b: char)
    requires ValidGap(gap)
    ensures Scan(GapText(gap) + x, line, b, false) == Scan(x, line + GapLines(gap), b, false)
  {
    hide Scan, ItemText, ValidItem;
    if gap == [] {
      assert GapText(gap) + x == x;
    } else {
      var rest := GapText(gap[1..]) + x;
      assert GapText(gap) + x == ItemText(gap[0]) + rest;
      ScanItem(gap[0], rest, line, b);
      ScanGap(gap[1..], x, line + ItemLines(gap[0]), b);
    }
  }

  lemma {:induction false} IdentOf(ident: string, x: string)
    requires (forall k :: 0 <= k < |ident| ==> !IsBreak(ident[k], false)) && (x == [] || IsBreak(x[0], false))
    ensures Ident(ident + x, false) == ident && AfterIdent(ident + x, false) == x
  {
    if ident == [] {
      assert ident + x == x;
    } else {
      IdentOf(ident[1..], x);
      assert (ident + x)[1..] == ident[1..] + x;
    }
  }

  lemma {:induction false} SpacesOf(ws: string, x: string)
    requires forall k :: 0 <= k < |ws| ==> IsSpace(ws[k])
    ensures SkipSpaces(ws + x) == SkipSpaces(x) && SpaceLines(ws + x) == SpaceCount(ws) + SpaceLines(x)
  {
    if ws == [] {
      assert ws + x == x;
    } else {
      SpacesOf(ws[1..], x);
      assert (ws + x)[1..] == ws[1..] + x;
    }
  }

  lemma SkipOne(c: char, x: string)
    requires IsSpace(c)
    ensures SkipSpaces([c] + x) == SkipSpaces(x) && SpaceLines([c] + x) == Newline(c) + SpaceLines(x)
  {
    assert ([c] + x)[1..] == x;
  }

  lemma PrintSpace(gap: seq<GapItem>, pieces: seq<Piece>)
    requires gap != [] && gap[0].Space?
    ensures Print(gap, pieces) == [gap[0].c] + Print(gap[1..], pieces)
  {
  }

  /** The text of a gap and what follows it, behind the gap's leading whitespace. */
  lemma {:induction false} GapSpaces(gap: seq<GapItem>, pieces: seq<Piece>)
    requires ValidGap(gap) && (pieces != [] ==> ValidPiece(pieces[0]))
    ensures SkipSpaces(Print(gap, pieces)) == Print(DropSpaces(gap), pieces)
    ensures SpaceLines(Print(gap, pieces)) == LeadLines(gap)
    ensures var t := Print(DropSpaces(gap), pieces); t != [] ==> !IsBreak(t[0], false)
  {
    hide IsSpace, ValidPiece, Print, GapText;
    if gap != [] && gap[0].Space? {
      assert ValidItem(gap[0]);
      GapSpaces(gap[1..], pieces);
      SkipOne(gap[0].c, Print(gap[1..], pieces));
      PrintSpace(gap, pieces);
    } else {
      FirstIsNoBreak(gap, pieces);
    }
  }

  lemma FirstIsNoBreak(gap: seq<GapItem>, pieces: seq<Piece>)
    requires ValidGap(gap) && (pieces != [] ==> ValidPiece(pieces[0])) && (gap != [] ==> !gap[0].Space?)
    ensures var t := Print(gap, pieces); t != [] ==> !IsBreak(t[0], false)
  {
    if gap != [] {
      assert GapText(gap)[0] == if gap[0].Hash? then '#' else '/';
    } else if pieces != [] {
      assert Print(gap, pieces)[0] == pieces[0].ident[0];
    }
  }

  lemma {:induction false} LinesAhead(gap: seq<GapItem>)
    ensures LeadLines(gap) + GapLines(DropSpaces(gap)) == GapLines(gap)
    ensures ValidGap(gap) ==> ValidGap(DropSpaces(gap))
  {
    if gap != [] {
      LinesAhead(gap[1..]);
    }
  }

  /** What is left of a gap after a separator: a space lets the whitespace after it go as well. */
  function Ahead(p: Piece): seq<GapItem> {
    if p.sep == ' ' then DropSpaces(p.gap) else p.gap
  }

  function AheadLines(p: Piece): nat {
    if p.sep == ' ' then LeadLines(p.gap) else 0
  }

  /** One token: the identifier and its separator. */
  lemma ScanPiece(p: Piece, more: seq<Piece>, line: nat, b: char)
    requires ValidPiece(p) && (more != [] ==> ValidPiece(more[0]))
    ensures Scan(p.ident + (p.ws + ([p.sep] + Print(p.gap, more))), line, b, false)
         == Scanned(p.ident, p.sep, Print(Ahead(p), more), line + SpaceCount(p.ws) + AheadLines(p) + Newline(p.sep))
  {
    hide Print;
    var u := Print(p.gap, more);
    var x := p.ws + ([p.sep] + u);
    var s := p.ident + x;
    IdentOf(p.ident, x);
    SpacesOf(p.ws, [p.sep] + u);
    assert ([p.sep] + u)[1..] == u;
    if p.sep == ' ' {
      GapSpaces(p.gap, more);
    }
  }

  // ------------------------------------------------------------------ quoted tokens

  lemma {:induction false} QuotedText(text: string, quote: char, x: string)
    requires quote !in text && '\\' !in text && quote != '\\'
    ensures Quoted(text + ([quote] + x), quote) == text + [quote] && AfterQuoted(text + ([quote] + x), quote) == x
  {
    var s := text + ([quote] + x);
    if text == [] {
      assert s == [quote] + x && s[1..] == x;
    } else {
      QuotedText(text[1..], quote, x);
      assert s[0] == text[0] && s[1..] == text[1..] + ([quote] + x);
    }
  }

  /** A quoted text without escapes is one token, quotes included, whatever is in it and whatever follows. */
  lemma QuotedRoundTrip(text: string, quote: char, x: string, line: nat, b: char)
    requires IsQuote(quote) && quote !in text && '\\' !in text
    ensures Scan([quote] + (text + ([quote] + x)), line, b, false) == Scanned([quote] + (text + [quote]), ' ', x, line)
  {
    QuotedText(text, quote, x);
    assert ([quote] + (text + ([quote] + x)))[1..] == text + ([quote] + x);
  }

  /** The letter of a letter escape is read once more, as itself. */
  lemma LetterIsReadAgain(letter: char, x: string, quote: char)
    requires LetterEscape(letter).Some? && IsQuote(quote)
    ensures Quoted(['\\', letter] + x, quote) == [LetterEscape(letter).value, letter] + Quoted(x, quote)
  {
    var s := ['\\', letter] + x;
    LetterEscapeOf(letter, x);
    hide Escape;
    assert s[1..] == [letter] + x;
    QuotedStep(s, quote, []);
    QuotedStep([letter] + x, quote, []);
    assert ([letter] + x)[1..] == x;
    hide Quoted;
    assert forall t: string :: [] + t == t;
  }

  lemma LetterEscapeOf(letter: char, x: string)
    requires LetterEscape(letter).Some?
    ensures Escape([letter] + x) == Escaped(LetterEscape(letter).value, [letter] + x, false)
    ensures letter != '\\' && !IsQuote(letter)
  {
  }

  // ------------------------------------------------------------------ whole texts

  datatype Token = Token(text: string, breakChar: char)

  datatype Reading = Reading(tokens: seq<Token>, rest: string, line: nat, breakChar: char)

  /** The first `n` calls of next_token. */
  function Read(s: string, line: nat, b: char, n: nat): Reading
    decreases n
  {
    if n == 0 then Reading([], s, line, b)
    else
      var first := Scan(s, line, b, false);
      var more := Read(first.rest, first.line, first.breakChar, n - 1);
      more.(tokens := [Token(first.token, first.breakChar)] + more.tokens)
  }

  function TokensOf(pieces: seq<Piece>): seq<Token> {
    if pieces == [] then [] else [Token(pieces[0].ident, pieces[0].sep)] + TokensOf(pieces[1..])
  }

  /** The tokens of a printed text are its identifiers with their separators; whitespace and comments only count as
      lines. */
  lemma {:induction false} TokenRoundTrip(lead: seq<GapItem>, pieces: seq<Piece>, line: nat, b: char)
    requires ValidGap(lead) && forall k :: 0 <= k < |pieces| ==> ValidPiece(pieces[k])
    ensures var r := Read(Print(lead, pieces), line, b, |pieces|);
            && r.tokens == TokensOf(pieces)
            && Scan(r.rest, r.line, r.breakChar, false) == Scanned([], r.breakChar, [], line + PrintLines(lead, pieces))
    decreases |pieces|
  {
    hide Scan, ValidPiece, GapText, GapLines, IsBreak;
    if pieces == [] {
      ScanGap(lead, [], line, b);
      assert Print(lead, pieces) == GapText(lead) + [];
      NothingLeft(line + GapLines(lead), b, false);
    } else {
      var p := pieces[0];
      PieceGap(p);
      var text := p.ident + (p.ws + ([p.sep] + Print(p.gap, pieces[1..])));
      ScanGap(lead, text, line, b);
      ScanPiece(p, pieces[1..], line + GapLines(lead), b);
      LinesAhead(p.gap);
      var next := line + GapLines(lead) + SpaceCount(p.ws) + AheadLines(p);
      TokenRoundTrip(Ahead(p), pieces[1..], next, p.sep);
      LinesFrom(p.gap, Ahead(p), pieces[1..]);
    }
  }

  lemma PieceGap(p: Piece)
    requires ValidPiece(p)
    ensures ValidGap(p.gap) && Newline(p.sep) == 0
  {
  }

  lemma LinesFrom(gap: seq<GapItem>, gap': seq<GapItem>, pieces: seq<Piece>)
    ensures PrintLines(gap, pieces) - GapLines(gap) == PrintLines(gap', pieces) - GapLines(gap')
  {
  }

  /** The class, called `n` times on a text. */
  method ReadTokens(text: string, n: nat) returns (tokens: seq<Token>, line: nat)
    ensures tokens == Read(text, 0, '\0', n).tokens && line == Read(text, 0, '\0', n).line
  {
    hide Scan;
    var stream := new ConfigStream(text);
    tokens := [];
    for k := 0 to n
      invariant stream.Valid() && fresh(stream)
      invariant tokens + Read(stream.rest, stream.line, stream.breakChar, n - k).tokens == Read(text, 0, '\0', n).tokens
      invariant Read(stream.rest, stream.line, stream.breakChar, n - k).line == Read(text, 0, '\0', n).line
    {
      var token := stream.NextToken(false);
      tokens := tokens + [Token(token, stream.breakChar)];
    }
    line := stream.line;
  }
}
