/** The parser that loads property values: dancex11/configurator/dancex11_config_parser.cpp and the value part of
    dancex11/configurator/dancex11_config_loader.cpp. */
module ConfigParser {
  import opened Collections
  import opened ConfigLiteral
  import opened ConfigStream

  lemma OneMoreMember(c: Scanned, before: seq<string>)
    requires c.token != []
    ensures |Next(c).token| > 0 ==> |Next(c).rest| < |c.rest|
    ensures IsText(Next(c).token) && Next(c).token != "]" ==>
              && before + Members(c).0 == before + [c.token] + Members(Next(c)).0 && Members(c).1 == Members(Next(c)).1
    ensures !(IsText(Next(c).token) && Next(c).token != "]") ==>
              before + Members(c).0 == before + [c.token] && Members(c).1 == Next(c)
  {
    hide Scan;
    Shrinks(c.rest, c.line, c.breakChar, false);
  }

  lemma OneMoreValue(tokens: seq<string>, t: string, base: nat)
    ensures Signed(tokens + [t]) == Signed(tokens) + [ParseSigned(t)]
    ensures Unsigned(tokens + [t], base) == Unsigned(tokens, base) + [ParseUnsigned(t, base)]
  {
    hide ParseSigned, ParseUnsigned;
    assert (tokens + [t])[..|tokens|] == tokens;
  }

  class ConfigParser {
    const stream: ConfigStream
    var token: string

    constructor (text: string)
      ensures fresh(stream) && stream.Valid() && Cursor() == Scanned([], '\0', text, 0)
    {
      stream := new ConfigStream(text);
      token := [];
    }

    ghost function Cursor(): Scanned
      reads this, stream
    {
      Scanned(token, stream.breakChar, stream.rest, stream.line)
    }

    method ParseNext() returns (isText: bool)
      requires stream.Valid()
      modifies this, stream
      ensures stream.Valid() && Cursor() == Next(old(Cursor())) && isText == IsText(token)
    {
      hide Scan, IsText;
      token := stream.NextToken(false);
      isText := IsText(token);
    }

    method LiteralTypeHere() returns (lt: LiteralType)
      requires stream.Valid() && token != []
      modifies this, stream
      ensures stream.Valid() && (lt, Cursor()) == ParseLiteralType(old(Cursor()))
      decreases |stream.rest|
    {
      hide Scan, IsText, Classify;
      if token == "[" {
        Shrinks(stream.rest, stream.line, stream.breakChar, false);
        var isText := ParseNext();
        if !isText {
          return LiteralType(Unknown, false);
        }
        NotEmpty(token);
        lt := LiteralTypeHere();
        if lt.base != Unknown {
          lt := lt.(isSeq := true);
        }
      } else {
        lt := LiteralType(Classify(token), false);
      }
    }

    /** The loop of load_property_sequence, for lists of 64 bit integers. */
    method LoadMembers(signed: bool, base: nat) returns (values: seq<int>)
      requires stream.Valid() && token != []
      modifies this, stream
      ensures stream.Valid()
      ensures var (tokens, end) := Members(old(Cursor()));
              Cursor() == end && values == if signed then Signed(tokens) else Unsigned(tokens, base)
    {
      hide Scan, IsText, Members, Signed, Unsigned, ParseSigned, ParseUnsigned;
      ghost var all, seen := Members(Cursor()), [];
      NoValues(base);
      values := [];
      var more := true;
      while more
        invariant stream.Valid() && (more ==> token != [])
        invariant more ==> seen + Members(Cursor()).0 == all.0 && Members(Cursor()).1 == all.1
        invariant !more ==> seen == all.0 && Cursor() == all.1
        invariant values == if signed then Signed(seen) else Unsigned(seen, base)
        decreases more, |stream.rest|
      {
        OneMoreMember(Cursor(), seen);
        OneMoreValue(seen, token, base);
        values := values + [if signed then ParseSigned(token) else ParseUnsigned(token, base)];
        seen := seen + [token];
        var isText := ParseNext();
        more := isText && token != "]";
        TextNotEmpty(token);
      }
    }

    /** An untyped property value; only lists of integers are modelled. */
    method LoadPropertyValue() returns (r: Loaded)
      requires stream.Valid() && token != []
      modifies this, stream
      ensures r == LoadList(old(Cursor()))
    {
      hide Scan, IsText, Members, Signed, Unsigned, ParseLiteralType;
      var lt := LiteralTypeHere();
      if lt.base == Unknown {
        return Failed;
      }
      if !lt.isSeq || (lt.base != LtInt && lt.base != LtUint && lt.base != LtOct) {
        return Unmodelled;
      }
      var values := LoadMembers(lt.base == LtInt, if lt.base == LtOct then 8 else 10);
      if token != "]" {
        return Failed;
      }
      r := if lt.base == LtInt then Int64s(values) else UInt64s(values);
    }
  }

  lemma NotEmpty(token: string)
    requires IsText(token)
    ensures token != []
  {
  }

  lemma TextNotEmpty(token: string)
    ensures IsText(token) ==> token != []
  {
  }

  lemma NoValues(base: nat)
    ensures Signed([]) == [] && Unsigned([], base) == []
  {
  }

  /** The value a text holds, loaded through tokenizer, classifier and list loop. */
  method LoadText(text: string) returns (r: Loaded)
    ensures var c := Scan(text, 0, '\0', false); r == if IsText(c.token) then LoadList(c) else Failed
  {
    hide Scan, IsText, LoadList;
    var parser := new ConfigParser(text);
    var isText := parser.ParseNext();
    if isText {
      NotEmpty(parser.token);
      r := parser.LoadPropertyValue();
    } else {
      r := Failed;
    }
  }
}
