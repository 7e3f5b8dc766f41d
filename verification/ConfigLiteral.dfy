/** Literals and bracketed lists of them: dancex11/configurator/dancex11_config_loader.cpp and
    dancex11/configurator/dancex11_config_util.h, over the tokens of the stream. */
module ConfigLiteral {
  import opened Collections
  import opened ConfigStream

  // ------------------------------------------------------------------ tokens of the parser

  const KEYWORDS := [
    "nl.remedy.it.DnCX11.InstanceHandler", "nl.remedy.it.DnCX11.DeploymentInterceptor",
    "nl.remedy.it.DnCX11.ConfigPlugin", "nl.remedy.it.DnCX11.ServiceObject", "nl.remedy.it.CCM.Component",
    "nl.remedy.it.DnCX11.LocalityManager", "nl.remedy.it.CCM.Container", "nl.remedy.it.DnCX11.ExecParameter",
    "nl.remedy.it.DnCX11.ConfigProperty", "nl.remedy.it.DnCX11.Connection", "nl.remedy.it.DnCX11.ExternalConnection",
    "nl.remedy.it.DnCX11.Node", "nl.remedy.it.DnCX11.Locality", "nl.remedy.it.DnCX11.Container",
    "nl.remedy.it.DnCX11.Artifact", "nl.remedy.it.DnCX11.Property"]

  /** Neither the empty token of the end of the input nor a keyword. */
  predicate IsText(token: string) {
    token != [] && token !in KEYWORDS
  }

  lemma NoKeyword(token: string)
    requires token != [] && token[0] != 'n'
    ensures IsText(token)
  {
    assert forall k :: 0 <= k < |KEYWORDS| ==> KEYWORDS[k][0] == 'n';
  }

  // ------------------------------------------------------------------ classification

  datatype Base = Unknown | LtChar | LtBool | LtInt | LtUint | LtHex | LtOct | LtDec | LtStr

  datatype LiteralType = LiteralType(base: Base, isSeq: bool)

  function Upper(c: char): char {
    if 'a' <= c <= 'z' then (c as int - 'a' as int + 'A' as int) as char else c
  }

  predicate EqualIgnoringCase(a: string, b: string) {
    |a| == |b| && forall i :: 0 <= i < |a| ==> Upper(a[i]) == Upper(b[i])
  }

  predicate StartsHex(t: string) {
    |t| >= 2 && t[0] == '0' && Upper(t[1]) == 'X'
  }

  /** The kind of a literal that is no list. */
  function Classify(t: string): Base
    requires t != []
  {
    var first := t[0];
    if EqualIgnoringCase(t, "false") || EqualIgnoringCase(t, "true") then LtBool
    else if StartsHex(t) then LtUint
    else if first == '"' then LtStr
    else if first == '\'' then LtChar
    else if first == 'x' || first == 'X' then LtHex
    else if first == '0' then
      if |t| == 1 then LtUint else if IsDigit(t[1]) then LtOct else Unknown
    else if first == '+' || first == '-' || first == '.' || IsDigit(first) then
      if '.' in t || 'e' in t || 'E' in t then LtDec else if first == '-' then LtInt else LtUint
    else Unknown
  }

  function Next(c: Scanned): Scanned {
    Scan(c.rest, c.line, c.breakChar, false)
  }

  /** Where a list begins its first member decides, and becomes the current token. */
  function ParseLiteralType(c: Scanned): (r: (LiteralType, Scanned))
    requires c.token != []
    ensures r.0.base != Unknown ==> r.1.token != []
    decreases |c.rest|
  {
    if c.token == "[" then
      var n := Next(c);
      Shrinks(c.rest, c.line, c.breakChar, false);
      if IsText(n.token) then
        var (lt, d) := ParseLiteralType(n);
        (if lt.base == Unknown then lt else lt.(isSeq := true), d)
      else (LiteralType(Unknown, false), n)
    else (LiteralType(Classify(c.token), false), c)
  }

  // ------------------------------------------------------------------ numbers

  const TWO63: int := 0x8000_0000_0000_0000
  const TWO64: int := 0x1_0000_0000_0000_0000

  function DigitOf(c: char): nat
    requires IsDigit(c)
  {
    c as nat - '0' as nat
  }

  /** The number that leads the text, in the given base, on top of `value`. */
  function NumberFrom(s: string, base: nat, value: nat): nat {
    if s != [] && IsDigit(s[0]) && DigitOf(s[0]) < base then NumberFrom(s[1..], base, base * value + DigitOf(s[0]))
    else value
  }

  predicate HasSign(s: string) {
    s != [] && (s[0] == '-' || s[0] == '+')
  }

  function Magnitude(s: string, base: nat): nat {
    NumberFrom(if HasSign(s) then s[1..] else s, base, 0)
  }

  /** Extraction into a signed 64 bit number: what does not fit becomes the nearest one. */
  function ParseSigned(s: string): int {
    var n: int := Magnitude(s, 10);
    if s != [] && s[0] == '-' then (if n > TWO63 then -TWO63 else -n)
    else if n >= TWO63 then TWO63 - 1 else n
  }

  /** Extraction into an unsigned 64 bit number: a negative number wraps, one too large becomes the largest. */
  function ParseUnsigned(s: string, base: nat): int {
    var n: int := Magnitude(s, base);
    if n >= TWO64 then TWO64 - 1
    else if s != [] && s[0] == '-' then (TWO64 - n) % TWO64
    else n
  }

  // ------------------------------------------------------------------ lists

  datatype Loaded = Int64s(values: seq<int>) | UInt64s(values: seq<int>) | Unmodelled | Failed

  /** The tokens of a list from the current one on, and the token that ends it. */
  function Members(c: Scanned): (r: (seq<string>, Scanned))
    requires c.token != []
    decreases |c.rest|
  {
    var n := Next(c);
    Shrinks(c.rest, c.line, c.breakChar, false);
    if IsText(n.token) && n.token != "]" then
      var (more, end) := Members(n);
      ([c.token] + more, end)
    else ([c.token], n)
  }

  function Signed(tokens: seq<string>): seq<int> {
    if tokens == [] then [] else Signed(tokens[..|tokens| - 1]) + [ParseSigned(tokens[|tokens| - 1])]
  }

  function Unsigned(tokens: seq<string>, base: nat): seq<int> {
    if tokens == [] then [] else Unsigned(tokens[..|tokens| - 1], base) + [ParseUnsigned(tokens[|tokens| - 1], base)]
  }

  /** The value of an untyped property that is a list of integers: the type of its first member is that of all. */
  function LoadList(c: Scanned): Loaded
    requires c.token != []
  {
    var (lt, d) := ParseLiteralType(c);
    if lt.base == Unknown then Failed
    else if !lt.isSeq || lt.base !in {LtInt, LtUint, LtOct} then Unmodelled
    else
      var (tokens, end) := Members(d);
      if end.token != "]" then Failed
      else if lt.base == LtInt then Int64s(Signed(tokens))
      else UInt64s(Unsigned(tokens, if lt.base == LtOct then 8 else 10))
  }

  // ------------------------------------------------------------------ printing

  function Digits(n: nat): string {
    if n < 10 then [('0' as nat + n) as char] else Digits(n / 10) + [('0' as nat + n % 10) as char]
  }

  function PrintInt(i: int): string {
    if i < 0 then ['-'] + Digits(-i) else Digits(i)
  }

  function Texts(ns: seq<int>): seq<string> {
    if ns == [] then [] else [PrintInt(ns[0])] + Texts(ns[1..])
  }

  /** The members from the first of `texts` on, the closing bracket, and `x`. */
  function JoinMembers(texts: seq<string>, x: string): string
    requires texts != []
  {
    texts[0] + if |texts| == 1 then [']'] + x else [','] + JoinMembers(texts[1..], x)
  }

  /** A list of literals, however written. */
  function ListText(texts: seq<string>, x: string): string
    requires texts != []
  {
    ['['] + JoinMembers(texts, x)
  }

  function PrintList(ns: seq<int>, x: string): string
    requires ns != []
  {
    ListText(Texts(ns), x)
  }

  lemma {:induction false} DigitsShape(n: nat)
    ensures Digits(n) != [] && forall k :: 0 <= k < |Digits(n)| ==> IsDigit(Digits(n)[k])
    ensures Digits(n)[0] == '0' ==> |Digits(n)| == 1
    ensures n >= 1 ==> Digits(n)[0] != '0'
  {
    if n >= 10 {
      DigitsShape(n / 10);
    }
  }

  lemma {:induction false} NumberAppend(s: string, d: char, base: nat, v: nat)
    requires (forall k :: 0 <= k < |s| ==> IsDigit(s[k]) && DigitOf(s[k]) < base) && IsDigit(d) && DigitOf(d) < base
    ensures NumberFrom(s + [d], base, v) == base * NumberFrom(s, base, v) + DigitOf(d)
  {
    if s == [] {
      assert s + [d] == [d] && [d][1..] == [];
    } else {
      NumberAppend(s[1..], d, base, base * v + DigitOf(s[0]));
      assert (s + [d])[1..] == s[1..] + [d];
    }
  }

  lemma {:induction false} NumberOfDigits(n: nat)
    ensures NumberFrom(Digits(n), 10, 0) == n
  {
    DigitsShape(n);
    if n < 10 {
      assert Digits(n)[1..] == [];
    } else {
      DigitsShape(n / 10);
      NumberOfDigits(n / 10);
      NumberAppend(Digits(n / 10), ('0' as nat + n % 10) as char, 10, 0);
    }
  }

  /** Reading a printed number back: signed and unsigned extraction are right exactly on their ranges; what a negative
      number becomes as an unsigned one. */
  lemma ParsePrinted(i: int)
    ensures ParseSigned(PrintInt(i)) == if i < -TWO63 then -TWO63 else if i >= TWO63 then TWO63 - 1 else i
    ensures i >= 0 ==> ParseUnsigned(PrintInt(i), 10) == if i >= TWO64 then TWO64 - 1 else i
    ensures i < 0 ==> ParseUnsigned(PrintInt(i), 10) == if i <= -TWO64 then TWO64 - 1 else TWO64 + i
  {
    var n: nat := if i < 0 then -i else i;
    DigitsShape(n);
    NumberOfDigits(n);
    if i < 0 {
      assert PrintInt(i)[1..] == Digits(n);
    }
  }

  lemma ClassifyPrinted(i: int)
    ensures PrintInt(i) != [] && Classify(PrintInt(i)) == if i < 0 then LtInt else LtUint
  {
    var n: nat := if i < 0 then -i else i;
    var t := PrintInt(i);
    DigitsShape(n);
    assert Upper(t[0]) != 'T' && Upper(t[0]) != 'F' by { assert t[0] == '-' || IsDigit(t[0]); }
    assert Upper("true"[0]) == 'T' && Upper("false"[0]) == 'F';
    forall k | 0 <= k < |t|
      ensures t[k] == '-' || IsDigit(t[k])
    {
    }
  }

  /** A literal that can be a member of a list. */
  predicate IsMember(t: string) {
    IsIdentifier(t) && IsText(t)
  }

  lemma PrintedIsMember(i: int)
    ensures IsMember(PrintInt(i))
  {
    var n: nat := if i < 0 then -i else i;
    var t := PrintInt(i);
    DigitsShape(n);
    forall k | 0 <= k < |t|
      ensures t[k] == '-' || IsDigit(t[k])
    {
    }
    NoKeyword(t);
  }

  // ------------------------------------------------------------------ tokens of a list

  lemma ScanBracket(c: char, x: string, line: nat, b: char)
    requires c == '[' || c == ']'
    ensures Scan([c] + x, line, b, false) == Scanned([c], ' ', x, line)
  {
    assert ([c] + x)[1..] == x;
  }

  lemma ScanMember(t: string, sep: char, x: string, line: nat, b: char)
    requires IsMember(t) && (sep == ',' || sep == ']')
    ensures Scan(t + ([sep] + x), line, b, false)
         == if sep == ',' then Scanned(t, ',', x, line) else Scanned(t, ' ', [sep] + x, line)
  {
    hide IsText;
    IdentOf(t, [sep] + x);
    assert ([sep] + x)[1..] == x;
    var s := t + ([sep] + x);
    assert s[0] == t[0] && !IsBreak(s[0], false);
    assert |t| > 1 ==> s[1] == t[1];
    assert |t| == 1 ==> s[1] == sep;
  }

  /** `c` stands at the first of the members. */
  predicate AtMember(c: Scanned, texts: seq<string>, x: string)
    requires texts != []
  {
    c.token == texts[0] && c.rest == if |texts| == 1 then [']'] + x else JoinMembers(texts[1..], x)
  }

  lemma MemberScanned(texts: seq<string>, x: string, line: nat, b: char)
    requires texts != [] && IsMember(texts[0])
    ensures AtMember(Scan(JoinMembers(texts, x), line, b, false), texts, x)
  {
    hide Scan, IsMember;
    if |texts| == 1 {
      ScanMember(texts[0], ']', x, line, b);
    } else {
      ScanMember(texts[0], ',', JoinMembers(texts[1..], x), line, b);
    }
  }

  lemma MemberNotBracket(t: string)
    requires IsMember(t)
    ensures t != [] && IsText(t) && t != "[" && t != "]"
  {
    assert !IsBreak(t[0], false);
  }

  lemma {:induction false} MembersOf(c: Scanned, texts: seq<string>, x: string)
    requires texts != [] && c.token != [] && AtMember(c, texts, x) && forall k :: 0 <= k < |texts| ==> IsMember(texts[k])
    ensures Members(c).0 == texts && Members(c).1.token == "]" && Members(c).1.rest == x
    decreases |texts|
  {
    hide Scan, IsText, JoinMembers, IsMember;
    if |texts| == 1 {
      ScanBracket(']', x, c.line, c.breakChar);
    } else {
      MemberScanned(texts[1..], x, c.line, c.breakChar);
      MemberNotBracket(texts[1]);
      MembersOf(Next(c), texts[1..], x);
    }
  }

  /** What a list of literals is loaded as: the first one decides how all of them are converted. */
  lemma ListLoads(texts: seq<string>, x: string, line: nat, b: char)
    requires texts != [] && forall k :: 0 <= k < |texts| ==> IsMember(texts[k])
    ensures texts[0] != []
    ensures var c := Scan(ListText(texts, x), line, b, false);
            && c.token == "["
            && LoadList(c) == match Classify(texts[0])
                              case LtInt => Int64s(Signed(texts))
                              case LtUint => UInt64s(Unsigned(texts, 10))
                              case LtOct => UInt64s(Unsigned(texts, 8))
                              case Unknown => Failed
                              case _ => Unmodelled
  {
    hide Scan, IsText, JoinMembers, IsMember, Members, Classify, Signed, Unsigned;
    ScanBracket('[', JoinMembers(texts, x), line, b);
    var c := Scan(ListText(texts, x), line, b, false);
    MemberScanned(texts, x, c.line, c.breakChar);
    MemberNotBracket(texts[0]);
    MembersOf(Next(c), texts, x);
    assert ParseLiteralType(Next(c)) == (LiteralType(Classify(texts[0]), false), Next(c));
  }

  lemma {:induction false} ConvertedAt(tokens: seq<string>, base: nat)
    ensures |Signed(tokens)| == |tokens| == |Unsigned(tokens, base)|
    ensures forall k :: 0 <= k < |tokens| ==> Signed(tokens)[k] == ParseSigned(tokens[k])
    ensures forall k :: 0 <= k < |tokens| ==> Unsigned(tokens, base)[k] == ParseUnsigned(tokens[k], base)
  {
    hide ParseSigned, ParseUnsigned;
    if tokens != [] {
      ConvertedAt(tokens[..|tokens| - 1], base);
    }
  }

  lemma {:induction false} TextsAt(ns: seq<int>)
    ensures |Texts(ns)| == |ns| && forall k :: 0 <= k < |ns| ==> Texts(ns)[k] == PrintInt(ns[k])
  {
    hide PrintInt;
    if ns != [] {
      TextsAt(ns[1..]);
    }
  }

  /** What a printed list is loaded as, whatever its members. */
  lemma PrintedListLoads(ns: seq<int>, x: string, line: nat, b: char)
    requires ns != []
    ensures var c := Scan(PrintList(ns, x), line, b, false);
            && c.token == "["
            && LoadList(c) == if ns[0] < 0 then Int64s(Signed(Texts(ns))) else UInt64s(Unsigned(Texts(ns), 10))
  {
    hide Scan, PrintInt, IsMember, Classify, Signed, Unsigned, LoadList;
    TextsAt(ns);
    forall k | 0 <= k < |ns|
      ensures IsMember(Texts(ns)[k])
    {
      PrintedIsMember(ns[k]);
    }
    ClassifyPrinted(ns[0]);
    ListLoads(Texts(ns), x, line, b);
  }

  predicate AllWithin(ns: seq<int>, low: int, high: int) {
    forall k :: 0 <= k < |ns| ==> low <= ns[k] < high
  }

  /** A printed list of integers is loaded back, as unsigned or signed 64 bit numbers, exactly when all of them are
      unsigned, or all are signed and the first one is negative. */
  lemma ListRoundTrip(ns: seq<int>, x: string, line: nat, b: char)
    requires ns != []
    ensures var c := Scan(PrintList(ns, x), line, b, false);
            && c.token != []
            && (LoadList(c) == UInt64s(ns) <==> AllWithin(ns, 0, TWO64))
            && (LoadList(c) == Int64s(ns) <==> ns[0] < 0 && AllWithin(ns, -TWO63, TWO63))
  {
    hide Scan, PrintInt, LoadList, Texts, Signed, Unsigned, ParseSigned, ParseUnsigned;
    PrintedListLoads(ns, x, line, b);
    TextsAt(ns);
    ConvertedAt(Texts(ns), 10);
    forall k | 0 <= k < |ns|
      ensures Signed(Texts(ns))[k] == ns[k] <==> -TWO63 <= ns[k] < TWO63
      ensures Unsigned(Texts(ns), 10)[k] == ns[k] <==> 0 <= ns[k] < TWO64
    {
      ParsePrinted(ns[k]);
    }
  }
}
