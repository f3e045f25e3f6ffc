/** The attribute lists of authentication headers: a scheme, then `name=value` items. */
module AuthAttributes {
  import opened HttpText

  datatype Attribute = Attribute(name: string, value: string)

  // ---------- Reading ----------

  /** Whether the name of an attribute ends where `s` starts. An equal sign that is
      followed by another one, or by a space, belongs to the name. */
  predicate IsEndOfName(s: string) {
    || s == ""
    || IsSpace(s[0])
    || (|s| > 1 && s[0] == '=' && !IsSpace(s[1]) && s[1] != '=')
  }

  function SkipSpaces(s: string): (t: string)
    ensures |t| <= |s| && (t == "" || !IsSpace(t[0]))
  {
    if s != "" && IsSpace(s[0]) then SkipSpaces(s[1..]) else s
  }

  function Name(s: string): (n: string)
    ensures n <= s && IsEndOfName(s[|n|..])
  {
    if IsEndOfName(s) then "" else [s[0]] + Name(s[1..])
  }

  /** The value that a quotation stands for, and what follows its closing quote. */
  function Quotation(s: string): (r: (string, string))
    ensures |r.1| <= |s|
  {
    if s == "" then ("", "")
    else if s[0] == '"' then ("", s[1..])
    else
      var t := if s[0] == '\\' && |s| > 1 then s[1..] else s;
      var (value, rest) := Quotation(t[1..]);
      ([t[0]] + value, rest)
  }

  function Token(s: string): (t: string)
    ensures t <= s
  {
    if s == "" || IsSpace(s[0]) || s[0] == ',' then "" else [s[0]] + Token(s[1..])
  }

  function Value(s: string): (r: (string, string))
    ensures |r.1| <= |s|
  {
    if s != "" && s[0] == '"' then Quotation(s[1..]) else (Token(s), s[|Token(s)|..])
  }

  function SkipComma(s: string): string {
    if s != "" && s[0] == ',' then s[1..] else s
  }

  /** One attribute, and what is left of a header that starts with it: always less. */
  function TakeAttribute(s: string): (r: (Attribute, string))
    requires s != "" && !IsSpace(s[0])
    ensures |r.1| < |s|
  {
    var name := Name(s);
    var t := s[|name|..];
    if t != "" && t[0] == '=' then
      var (value, rest) := Value(t[1..]);
      (Attribute(name, value), SkipComma(rest))
    else
      (Attribute(name, ""), SkipComma(t))
  }

  function Parse(s: string): (attributes: seq<Attribute>)
    decreases |s|
  {
    var t := SkipSpaces(s);
    if t == "" then [] else [TakeAttribute(t).0] + Parse(TakeAttribute(t).1)
  }

  // ---------- Writing ----------

  function Escape(value: string): string {
    if value == "" then ""
    else (if value[0] == '"' || value[0] == '\\' then "\\" else "") + [value[0]] + Escape(value[1..])
  }

  function Quote(value: string): string {
    "\"" + Escape(value) + "\""
  }

  datatype Item = Item(name: string, value: string, quoted: bool) {
    function Written(): string {
      if quoted then Quote(value) else value
    }

    function Text(): string {
      name + "=" + Written()
    }
  }

  function Joined(items: seq<Item>): string {
    if items == [] then ""
    else items[0].Text() + if |items| == 1 then "" else ", " + Joined(items[1..])
  }

  function Attributes(items: seq<Item>): (attributes: seq<Attribute>)
    ensures |attributes| == |items|
  {
    seq(|items|, i requires 0 <= i < |items| => Attribute(items[i].name, items[i].value))
  }

  // ---------- What reads back ----------

  /** A name that the reader takes whole: no space, and equal signs at its end only. */
  predicate NameOk(n: string) {
    && (forall i :: 0 <= i < |n| ==> !IsSpace(n[i]))
    && (forall i :: 0 <= i < |n| - 1 && n[i] == '=' ==> n[i + 1] == '=')
  }

  /** A value that may go without quotes. */
  predicate TokenOk(v: string) {
    && v != "" && v[0] != '"' && v[0] != '='
    && forall i :: 0 <= i < |v| ==> !IsSpace(v[i]) && v[i] != ','
  }

  lemma {:induction false} NameTaken(n: string, t: string)
    requires NameOk(n) && IsEndOfName(t)
    requires t == "" || IsSpace(t[0]) || t[0] == '='
    ensures Name(n + t) == n
  {
    if n == "" {
      assert n + t == t;
    } else {
      assert (n + t)[1..] == n[1..] + t;
      NameTaken(n[1..], t);
    }
  }

  lemma {:induction false} EveryNameIsOk(s: string)
    ensures NameOk(Name(s))
  {
    if !IsEndOfName(s) {
      EveryNameIsOk(s[1..]);
      var n := Name(s[1..]);
      assert Name(s) == [s[0]] + n;
      if n != "" {
        assert n[0] == s[1];
      }
    }
  }

  lemma TakenName(s: string)
    requires s != "" && !IsSpace(s[0])
    ensures TakeAttribute(s).0.name == Name(s)
  {
  }

  lemma {:induction false} EveryParsedNameIsOk(s: string, i: nat)
    requires i < |Parse(s)|
    ensures NameOk(Parse(s)[i].name)
    decreases |s|
  {
    hide TakeAttribute, NameOk, Name, IsEndOfName, IsSpace;
    var t := SkipSpaces(s);
    TakenName(t);
    EveryNameIsOk(t);
    if i > 0 {
      EveryParsedNameIsOk(TakeAttribute(t).1, i - 1);
    }
  }

  lemma QuotationSteps(c: char, s: string)
    ensures c != '"' && c != '\\' ==> Quotation([c] + s) == ([c] + Quotation(s).0, Quotation(s).1)
    ensures Quotation("\\" + [c] + s) == ([c] + Quotation(s).0, Quotation(s).1)
  {
    assert ([c] + s)[1..] == s;
    var t := "\\" + [c] + s;
    assert t[0] == '\\' && t[1..] == [c] + s;
  }

  lemma {:induction false} QuotationUndoesEscape(value: string, t: string)
    ensures Quotation(Escape(value) + ("\"" + t)) == (value, t)
  {
    var end := "\"" + t;
    if value == "" {
      assert "" + end == end && end[1..] == t;
    } else {
      var rest := Escape(value[1..]) + end;
      QuotationUndoesEscape(value[1..], t);
      QuotationSteps(value[0], rest);
      EscapeStep(value, end);
      hide Quotation, Escape;
      assert Quotation(rest) == (value[1..], t);
      assert Quotation(Escape(value) + end) == ([value[0]] + value[1..], t);
      assert value == [value[0]] + value[1..];
    }
  }

  lemma EscapeStep(value: string, end: string)
    requires value != ""
    ensures var rest := Escape(value[1..]) + end;
      Escape(value) + end
      == if value[0] == '"' || value[0] == '\\' then "\\" + [value[0]] + rest else [value[0]] + rest
  {
  }

  lemma Regrouped(a: string, b: string, c: string)
    ensures a + (b + c) == a + b + c
  {
  }

  /** Only quotes and backslashes are escaped. */
  lemma {:induction false} EscapeAt(value: string, i: nat)
    requires i < |value|
    ensures Escape(value)
      == Escape(value[..i]) + (if value[i] in "\"\\" then ['\\', value[i]] else [value[i]]) + Escape(value[i + 1..])
    decreases value
  {
    var one := if value[i] in "\"\\" then ['\\', value[i]] else [value[i]];
    if i == 0 {
      assert value[..0] == "";
      assert "" + one + Escape(value[1..]) == one + Escape(value[1..]);
    } else {
      var rest, front := value[1..], value[..i];
      EscapeAt(rest, i - 1);
      assert rest[..i - 1] == front[1..] && rest[i..] == value[i + 1..];
      EscapeFirst(value);
      EscapeFirst(front);
      hide Escape;
      var first := if value[0] in "\"\\" then ['\\', value[0]] else [value[0]];
      Regrouped(first, Escape(front[1..]) + one, Escape(value[i + 1..]));
      Regrouped(first, Escape(front[1..]), one);
    }
  }

  lemma EscapeFirst(value: string)
    requires value != ""
    ensures Escape(value) == (if value[0] in "\"\\" then ['\\', value[0]] else [value[0]]) + Escape(value[1..])
  {
  }

  /** A character in a quotation, escaped or as it is. */
  datatype Spelled = Spelled(c: char, escaped: bool) {
    predicate Readable() {
      c == '"' || c == '\\' ==> escaped
    }
  }

  function Spelling(cs: seq<Spelled>): string {
    if cs == [] then "" else (if cs[0].escaped then "\\" else "") + [cs[0].c] + Spelling(cs[1..])
  }

  function Said(cs: seq<Spelled>): string {
    if cs == [] then "" else [cs[0].c] + Said(cs[1..])
  }

  /** Quotations are read alike however many of their characters are escaped; and one that
      is never closed goes on to the end. */
  lemma {:induction false} AnyQuotationRead(cs: seq<Spelled>, end: string)
    requires forall i :: 0 <= i < |cs| ==> cs[i].Readable()
    requires end == "" || end[0] == '"'
    ensures Quotation(Spelling(cs) + end) == (Said(cs), if end == "" then "" else end[1..])
  {
    if cs == [] {
      assert "" + end == end;
    } else {
      var c, rest := cs[0].c, Spelling(cs[1..]) + end;
      assert cs[0].Readable();
      AnyQuotationRead(cs[1..], end);
      QuotationSteps(c, rest);
      SpellingStep(cs, end);
      hide Quotation, Spelling;
    }
  }

  lemma SpellingStep(cs: seq<Spelled>, end: string)
    requires cs != []
    ensures var rest := Spelling(cs[1..]) + end;
      Spelling(cs) + end == if cs[0].escaped then "\\" + [cs[0].c] + rest else [cs[0].c] + rest
  {
  }

  lemma {:induction false} TokenTaken(v: string, t: string)
    requires forall i :: 0 <= i < |v| ==> !IsSpace(v[i]) && v[i] != ','
    requires t == "" || t[0] == ',' || IsSpace(t[0])
    ensures Token(v + t) == v
  {
    if v == "" {
      assert v + t == t;
    } else {
      assert (v + t)[1..] == v[1..] + t;
      TokenTaken(v[1..], t);
    }
  }

  lemma QuotedTaken(value: string, t: string)
    ensures (Quote(value) + t)[0] == '"' && Value(Quote(value) + t) == (value, t)
  {
    var s := Quote(value) + t;
    assert s[1..] == Escape(value) + ("\"" + t);
    QuotationUndoesEscape(value, t);
    hide Quotation, Escape;
  }

  lemma UnquotedTaken(value: string, t: string)
    requires TokenOk(value)
    requires t == "" || t[0] == ',' || IsSpace(t[0])
    ensures (value + t)[0] == value[0] && Value(value + t) == (value, t)
  {
    TokenTaken(value, t);
    hide Token, TokenOk;
    assert (value + t)[|value|..] == t;
  }

  lemma NameAndValueTaken(name: string, v: string)
    requires NameOk(name) && v != "" && !IsSpace(v[0]) && v[0] != '='
    ensures var s := name + ("=" + v);
      s != "" && !IsSpace(s[0])
      && TakeAttribute(s) == (Attribute(name, Value(v).0), SkipComma(Value(v).1))
  {
    var after := "=" + v;
    assert after[1..] == v && after[1] == v[0];
    NameTaken(name, after);
    var s := name + after;
    assert s[0] == if name == "" then '=' else name[0];
    hide Name, NameOk, Value, SkipComma;
    assert s[|name|..] == after;
  }

  lemma ValueTaken(item: Item, t: string)
    requires !item.quoted ==> TokenOk(item.value)
    requires t == "" || t[0] == ',' || IsSpace(t[0])
    ensures var v := item.Written() + t;
      v != "" && !IsSpace(v[0]) && v[0] != '=' && Value(v) == (item.value, t)
  {
    if item.quoted {
      QuotedTaken(item.value, t);
      hide Quote, Value;
    } else {
      UnquotedTaken(item.value, t);
      hide Value;
    }
  }

  lemma ItemTaken(item: Item, t: string)
    requires NameOk(item.name) && (!item.quoted ==> TokenOk(item.value))
    requires t == "" || t[0] == ',' || IsSpace(t[0])
    ensures var s := item.Text() + t;
      s != "" && !IsSpace(s[0]) && TakeAttribute(s) == (Attribute(item.name, item.value), SkipComma(t))
  {
    hide Item.Written, Value, TokenOk, NameOk, TakeAttribute, SkipComma, IsSpace;
    var v := item.Written() + t;
    ValueTaken(item, t);
    NameAndValueTaken(item.name, v);
    assert item.Text() + t == item.name + ("=" + v);
  }

  lemma SpacesSkipped(s: string)
    ensures Parse(" " + s) == Parse(s)
  {
    hide TakeAttribute;
    assert (" " + s)[1..] == s;
    assert SkipSpaces(" " + s) == SkipSpaces(s);
  }

  lemma ItemParsed(item: Item, t: string)
    requires NameOk(item.name) && (!item.quoted ==> TokenOk(item.value))
    requires t == "" || t[0] == ',' || IsSpace(t[0])
    ensures Parse(item.Text() + t) == [Attribute(item.name, item.value)] + Parse(SkipComma(t))
  {
    ItemTaken(item, t);
    hide TakeAttribute, NameOk, TokenOk, Item.Text, SkipComma, IsSpace;
    assert SkipSpaces(item.Text() + t) == item.Text() + t;
  }

  lemma {:induction false} ItemsReadBack(items: seq<Item>)
    requires forall i :: 0 <= i < |items| ==> NameOk(items[i].name) && (!items[i].quoted ==> TokenOk(items[i].value))
    ensures Parse(Joined(items)) == Attributes(items)
  {
    hide Parse, NameOk, TokenOk, Item.Text;
    if items == [] {
      EmptyParsed();
    } else {
      var t := if |items| == 1 then "" else ", " + Joined(items[1..]);
      assert Joined(items) == items[0].Text() + t;
      ItemParsed(items[0], t);
      ItemsReadBack(items[1..]);
      if |items| > 1 {
        assert t[1..] == " " + Joined(items[1..]);
        SpacesSkipped(Joined(items[1..]));
      }
      assert Attributes(items) == [Attribute(items[0].name, items[0].value)] + Attributes(items[1..]);
    }
  }

  predicate Spaces(s: string) {
    forall i :: 0 <= i < |s| ==> IsSpace(s[i])
  }

  /** What may stand behind an item: a comma and any spaces, or spaces alone, of which there
      must be some unless nothing follows. */
  predicate Separates(sep: string, last: bool) {
    if sep != "" && sep[0] == ',' then Spaces(sep[1..]) else Spaces(sep) && (sep != "" || last)
  }

  function Listed(items: seq<Item>, seps: seq<string>): string
    requires |items| == |seps|
  {
    if items == [] then "" else items[0].Text() + (seps[0] + Listed(items[1..], seps[1..]))
  }

  lemma {:induction false} AnySpacesSkipped(spaces: string, s: string)
    requires Spaces(spaces)
    ensures Parse(spaces + s) == Parse(s)
  {
    if spaces == "" {
      assert spaces + s == s;
    } else {
      var rest := spaces[1..] + s;
      assert (spaces + s)[1..] == rest;
      assert SkipSpaces(spaces + s) == SkipSpaces(rest);
      AnySpacesSkipped(spaces[1..], s);
      hide TakeAttribute, SkipSpaces;
    }
  }

  lemma SeparatorSkipped(sep: string, s: string, last: bool)
    requires Separates(sep, last) && (last ==> s == "")
    ensures var t := sep + s; (t == "" || t[0] == ',' || IsSpace(t[0])) && Parse(SkipComma(t)) == Parse(s)
  {
    hide Parse;
    var t := sep + s;
    if sep != "" && sep[0] == ',' {
      assert t[1..] == sep[1..] + s;
      AnySpacesSkipped(sep[1..], s);
    } else {
      AnySpacesSkipped(sep, s);
    }
  }

  /** Items are read alike whether commas, spaces or both stand between them; but a comma
      must follow its item at once. */
  lemma {:induction false} SeparatedItemsRead(items: seq<Item>, seps: seq<string>)
    requires |items| == |seps|
    requires forall i :: 0 <= i < |items| ==>
      NameOk(items[i].name) && (!items[i].quoted ==> TokenOk(items[i].value)) && Separates(seps[i], i == |items| - 1)
    ensures Parse(Listed(items, seps)) == Attributes(items)
  {
    hide Parse, NameOk, TokenOk, Item.Text, SkipComma, Separates;
    if items == [] {
      EmptyParsed();
    } else {
      var rest := Listed(items[1..], seps[1..]);
      SeparatorSkipped(seps[0], rest, |items| == 1);
      ItemParsed(items[0], seps[0] + rest);
      SeparatedItemsRead(items[1..], seps[1..]);
      assert Attributes(items) == [Attribute(items[0].name, items[0].value)] + Attributes(items[1..]);
    }
  }

  /** A comma that comes behind a space is taken for an attribute. */
  lemma LateCommaRead(rest: string)
    ensures Parse(", " + rest) == [Attribute(",", "")] + Parse(rest)
  {
    hide Parse;
    CommaIsOk();
    hide NameOk;
    SchemeTaken(",", rest);
    SpacesSkipped(rest);
    assert "," + " " + rest == ", " + rest;
  }

  lemma CommaIsOk()
    ensures NameOk(",")
  {
  }

  lemma EmptyParsed()
    ensures Parse("") == []
  {
  }

  /** Reading undoes writing exactly when the scheme is not empty and no name holds a
      space, or an equal sign before something else; whatever the quoted values are. */
  lemma {:induction false} ReadsBackIff(scheme: string, items: seq<Item>)
    requires forall i :: 0 <= i < |items| && !items[i].quoted ==> TokenOk(items[i].value)
    ensures Parse(scheme + " " + Joined(items)) == [Attribute(scheme, "")] + Attributes(items)
      <==> scheme != "" && NameOk(scheme) && forall i :: 0 <= i < |items| ==> NameOk(items[i].name)
  {
    hide Parse, Joined, NameOk, TokenOk;
    if Parse(scheme + " " + Joined(items)) == [Attribute(scheme, "")] + Attributes(items) {
      ReadNamesAreOk(scheme, items);
    }
    if NameOk(scheme) && forall i :: 0 <= i < |items| ==> NameOk(items[i].name) {
      ItemsReadBack(items);
      SpacesSkipped(Joined(items));
      if scheme == "" {
        assert "" + " " + Joined(items) == " " + Joined(items);
        assert |Attributes(items)| != |[Attribute(scheme, "")] + Attributes(items)|;
      } else {
        SchemeTaken(scheme, Joined(items));
      }
    }
  }

  lemma {:induction false} ReadNamesAreOk(scheme: string, items: seq<Item>)
    requires Parse(scheme + " " + Joined(items)) == [Attribute(scheme, "")] + Attributes(items)
    ensures NameOk(scheme) && forall i :: 0 <= i < |items| ==> NameOk(items[i].name)
  {
    hide Parse, Joined, NameOk;
    var expected := [Attribute(scheme, "")] + Attributes(items);
    EveryParsedNameIsOk(scheme + " " + Joined(items), 0);
    assert expected[0].name == scheme;
    forall i | 0 <= i < |items| ensures NameOk(items[i].name) {
      EveryParsedNameIsOk(scheme + " " + Joined(items), i + 1);
      assert expected[i + 1].name == items[i].name;
    }
  }

  lemma SchemeTaken(scheme: string, rest: string)
    requires scheme != "" && NameOk(scheme)
    ensures Parse(scheme + " " + rest) == [Attribute(scheme, "")] + Parse(" " + rest)
  {
    var t := " " + rest;
    var s := scheme + " " + rest;
    assert s == scheme + t;
    NameTaken(scheme, t);
    assert s[|scheme|..] == t && s[0] == scheme[0];
    assert SkipSpaces(s) == s;
    hide Name, NameOk;
    assert TakeAttribute(s) == (Attribute(scheme, ""), t);
  }

  /** The items of the header that answers a digest challenge. */
  function DigestItems(username: string, realm: string, nonce: string, uri: string, qop: bool,
                       cnonce: string, response: string, hasOpaque: bool, opaqueText: string): seq<Item> {
    [Item("username", username, true), Item("realm", realm, true), Item("nonce", nonce, true), Item("uri", uri, true)]
    + (if qop then [Item("qop", "auth", false), Item("nc", "00000001", false), Item("cnonce", cnonce, true)] else [])
    + [Item("response", response, true)]
    + (if hasOpaque then [Item("opaque", opaqueText, true)] else [])
  }

  /** So whatever the user name, and whatever the challenge held, the answer to a digest
      challenge is read as it was meant. */
  lemma {:induction false} DigestReadsBack(scheme: string, username: string, realm: string, nonce: string, uri: string,
                                           qop: bool, cnonce: string, response: string, hasOpaque: bool,
                                           opaqueText: string)
    requires EqualsIgnoreCase(scheme, "digest")
    ensures var items := DigestItems(username, realm, nonce, uri, qop, cnonce, response, hasOpaque, opaqueText);
      Parse(scheme + " " + Joined(items)) == [Attribute(scheme, "")] + Attributes(items)
  {
    var items := DigestItems(username, realm, nonce, uri, qop, cnonce, response, hasOpaque, opaqueText);
    forall i | 0 <= i < |items| ensures NameOk(items[i].name) && (!items[i].quoted ==> TokenOk(items[i].value)) {
      DigestName(items[i].name);
      assert items[i].quoted || items[i].value in ["auth", "00000001"];
    }
    forall i | 0 <= i < |scheme| ensures !IsSpace(scheme[i]) && scheme[i] != '=' {
      assert ToLower(scheme[i]) == ToLower("digest"[i]);
    }
    hide Parse, Joined, DigestItems;
    ReadsBackIff(scheme, items);
  }

  lemma DigestName(name: string)
    requires name in ["username", "realm", "nonce", "uri", "qop", "nc", "cnonce", "response", "opaque"]
    ensures NameOk(name)
  {
  }

  // ---------- The loops ----------

  /** `quote`. */
  method QuoteString(str: string) returns (result: string)
    ensures result == Quote(str)
  {
    result := "\"";
    for i := 0 to |str|
      invariant result + Escape(str[i..]) == "\"" + Escape(str)
    {
      assert str[i..][1..] == str[i + 1..];
      if str[i] == '"' || str[i] == '\\' {
        result := result + "\\";
      }
      result := result + [str[i]];
    }
    result := result + "\"";
  }

  predicate IsEndOfAttributeName(pos: nat, data: string)
    requires pos <= |data|
    ensures IsEndOfAttributeName(pos, data) == IsEndOfName(data[pos..])
  {
    if pos >= |data| then true
    else if IsSpace(data[pos]) then true
    else pos + 1 < |data| && data[pos] == '=' && !IsSpace(data[pos + 1]) && data[pos + 1] != '='
  }

  lemma Suffix(data: string, pos: nat)
    requires pos < |data|
    ensures data[pos..] == [data[pos]] + data[pos + 1..] && data[pos..][1..] == data[pos + 1..]
  {
  }

  lemma TokenStep(data: string, pos: nat)
    requires pos <= |data|
    ensures Token(data[pos..])
      == if pos == |data| || IsSpace(data[pos]) || data[pos] == ',' then "" else [data[pos]] + Token(data[pos + 1..])
  {
    hide IsSpace;
    if pos < |data| {
      Suffix(data, pos);
    }
  }

  lemma NameStep(data: string, pos: nat)
    requires pos <= |data|
    ensures Name(data[pos..])
      == if IsEndOfAttributeName(pos, data) then "" else [data[pos]] + Name(data[pos + 1..])
  {
    hide IsSpace, IsEndOfName, IsEndOfAttributeName;
    if pos < |data| {
      Suffix(data, pos);
    }
  }

  method ScanToken(data: string, start: nat) returns (value: string, pos: nat)
    requires start <= |data|
    ensures start <= pos <= |data| && value == Token(data[start..]) && data[pos..] == data[start..][|value|..]
  {
    hide Token, IsSpace;
    pos, value := start, "";
    ghost var token := Token(data[start..]);
    while pos < |data| && !IsSpace(data[pos]) && data[pos] != ','
      invariant start <= pos <= |data| && |value| == pos - start
      invariant token == value + Token(data[pos..])
    {
      TokenStep(data, pos);
      Regrouped(value, [data[pos]], Token(data[pos + 1..]));
      value, pos := value + [data[pos]], pos + 1;
    }
    TokenStep(data, pos);
    assert value + "" == value;
    Behind(data, start, pos);
  }

  lemma Behind(data: string, start: nat, pos: nat)
    requires start <= pos <= |data|
    ensures data[pos..] == data[start..][pos - start..]
  {
  }

  lemma QuotationStep(data: string, pos: nat)
    requires pos <= |data|
    ensures var q := Quotation(data[pos..]);
      if pos == |data| then q == ("", data[pos..])
      else if data[pos] == '"' then q == ("", data[pos + 1..])
      else
        var p := if data[pos] == '\\' && pos + 1 < |data| then pos + 1 else pos;
        q == ([data[p]] + Quotation(data[p + 1..]).0, Quotation(data[p + 1..]).1)
  {
    if pos < |data| {
      Suffix(data, pos);
      if pos + 1 < |data| {
        Suffix(data, pos + 1);
      }
    }
  }

  method ScanQuotation(data: string, start: nat) returns (value: string, pos: nat)
    requires start < |data|
    ensures start < pos <= |data| && (value, data[pos..]) == Quotation(data[start + 1..])
  {
    hide Quotation;
    value, pos := "", start + 1;
    ghost var (v, rest) := Quotation(data[pos..]);
    while pos < |data|
      invariant start < pos <= |data|
      invariant v == value + Quotation(data[pos..]).0 && rest == Quotation(data[pos..]).1
    {
      QuotationStep(data, pos);
      if data[pos] == '"' {
        pos := pos + 1;
        assert value + "" == value;
        return;
      }
      if data[pos] == '\\' && pos + 1 < |data| {
        pos := pos + 1;
      }
      ghost var more := Quotation(data[pos + 1..]).0;
      assert v == value + ([data[pos]] + more) == value + [data[pos]] + more;
      value := value + [data[pos]];
      pos := pos + 1;
    }
    QuotationStep(data, pos);
    assert value + "" == value;
  }

  method ScanValue(data: string, start: nat) returns (value: string, pos: nat)
    requires start <= |data|
    ensures start <= pos <= |data| && (value, data[pos..]) == Value(data[start..])
  {
    hide Token, Quotation;
    if start < |data| && data[start] == '"' {
      Suffix(data, start);
      value, pos := ScanQuotation(data, start);
    } else {
      value, pos := ScanToken(data, start);
    }
  }

  method ScanName(data: string, start: nat) returns (pos: nat)
    requires start <= |data|
    ensures start <= pos <= |data| && data[start..pos] == Name(data[start..])
  {
    hide Name, IsEndOfAttributeName, IsEndOfName;
    pos := start;
    ghost var name := Name(data[start..]);
    NameStep(data, pos);
    while !IsEndOfAttributeName(pos, data)
      invariant start <= pos <= |data|
      invariant name == data[start..pos] + Name(data[pos..])
      decreases |data| - pos
    {
      NameStep(data, pos);
      EndIsEnd(data);
      Extended(data, start, pos, Name(data[pos + 1..]));
      pos := pos + 1;
    }
    NameStep(data, pos);
    NothingAdded(data[start..pos]);
  }

  lemma Extended(data: string, start: nat, pos: nat, rest: string)
    requires start <= pos < |data|
    ensures data[start..pos] + ([data[pos]] + rest) == data[start..pos + 1] + rest
  {
    assert data[start..pos + 1] == data[start..pos] + [data[pos]];
  }

  lemma NothingAdded(s: string)
    ensures s + "" == s
  {
  }

  lemma EndIsEnd(data: string)
    ensures IsEndOfAttributeName(|data|, data)
  {
  }

  method ScanAttribute(data: string, start: nat) returns (attribute: Attribute, pos: nat)
    requires start < |data| && !IsSpace(data[start])
    ensures start < pos <= |data| && (attribute, data[pos..]) == TakeAttribute(data[start..])
  {
    hide Name, Value, IsEndOfName, IsSpace;
    ghost var s := data[start..];
    pos := ScanName(data, start);
    attribute := Attribute(data[start..pos], "");
    assert s[|attribute.name|..] == data[pos..];
    ghost var rest := data[pos..];
    if pos < |data| && data[pos] == '=' {
      Suffix(data, pos);
      pos := pos + 1;
      var value;
      value, pos := ScanValue(data, pos);
      attribute := Attribute(attribute.name, value);
      rest := data[pos..];
    }
    assert TakeAttribute(s) == (attribute, SkipComma(rest));
    if pos < |data| && data[pos] == ',' {
      Suffix(data, pos);
      pos := pos + 1;
    }
    assert data[pos..] == SkipComma(rest);
    assert |data[pos..]| < |s|;
  }

  method SkipWhitespace(data: string, start: nat) returns (pos: nat)
    requires start <= |data|
    ensures start <= pos <= |data| && data[pos..] == SkipSpaces(data[start..])
  {
    pos := start;
    while pos < |data| && IsSpace(data[pos])
      invariant start <= pos <= |data| && SkipSpaces(data[pos..]) == SkipSpaces(data[start..])
    {
      Suffix(data, pos);
      pos := pos + 1;
    }
  }

  method HttpParseAttributes(data: string) returns (attributes: seq<Attribute>)
    ensures attributes == Parse(data)
  {
    hide TakeAttribute, SkipSpaces, IsSpace;
    var pos := 0;
    attributes := [];
    assert data[0..] == data;
    while true
      invariant pos <= |data| && Parse(data) == attributes + Parse(data[pos..])
      decreases |data| - pos
    {
      ghost var s := data[pos..];
      pos := SkipWhitespace(data, pos);
      if pos >= |data| {
        assert Parse(s) == [];
        return;
      }
      assert Parse(s) == [TakeAttribute(data[pos..]).0] + Parse(TakeAttribute(data[pos..]).1);
      var attribute;
      attribute, pos := ScanAttribute(data, pos);
      attributes := attributes + [attribute];
    }
  }
}
