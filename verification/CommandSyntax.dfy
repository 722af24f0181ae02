// The text of workflow commands, ::name key=value,key=value::data, and its percent escapes.
module CommandSyntax {
  import opened Text
  import opened Search

  const MAX_COMMAND_BYTES: nat := 8192

  /** strings.ToLower and strconv.Atoi are the host's. */
  datatype Host = Host(lower: string -> string, position: string -> bool)

  datatype Command = Command(name: string, properties: map<string, string>, data: string)

  datatype Parsed = NoCommand | Malformed | Parsed(command: Command)

  datatype Option<T> = None | Some(value: T)

  // ---------------------------------------------------------------- escapes

  /** The character two hexadecimal digits behind a percent sign stand for, if any. */
  function Code(a: char, b: char, property: bool): Option<char> {
    if a == '2' && b == '5' then Some('%')
    else if a == '0' && (b == 'A' || b == 'a') then Some('\n')
    else if a == '0' && (b == 'D' || b == 'd') then Some('\r')
    else if property && a == '3' && (b == 'A' || b == 'a') then Some(':')
    else if property && a == '2' && (b == 'C' || b == 'c') then Some(',')
    else None
  }

  function Decoded(s: string, property: bool): string {
    if s == "" then ""
    else if s[0] == '%' && |s| > 2 && Code(s[1], s[2], property).Some? then
      [Code(s[1], s[2], property).value] + Decoded(s[3..], property)
    else [s[0]] + Decoded(s[1..], property)
  }

  lemma DecodedAt(value: string, index: nat, property: bool)
    requires index < |value|
    ensures var code := if value[index] == '%' && index + 2 < |value|
        then Code(value[index + 1], value[index + 2], property) else None;
            Decoded(value[index..], property) ==
            if code.Some? then [code.value] + Decoded(value[index + 3..], property)
            else [value[index]] + Decoded(value[index + 1..], property)
  {
    hide Code;
    var rest := value[index..];
    assert rest[1..] == value[index + 1..];
    if |rest| > 2 {
      assert rest[3..] == value[index + 3..];
    }
  }

  method DecodeWorkflowValue(value: string, property: bool) returns (output: string)
    ensures output == Decoded(value, property)
  {
    hide Code, Decoded;
    output := "";
    var index := 0;
    while index < |value|
      invariant index <= |value| && output + Decoded(value[index..], property) == Decoded(value, property)
    {
      DecodedAt(value, index, property);
      if value[index] != '%' || index + 2 >= |value| {
        output, index := output + [value[index]], index + 1;
        continue;
      }
      var replacement := Code(value[index + 1], value[index + 2], property);
      if replacement.None? {
        output, index := output + [value[index]], index + 1;
        continue;
      }
      output, index := output + [replacement.value], index + 3;
    }
    assert value[|value|..] == "";
    DecodedEmpty(property);
  }

  lemma DecodedEmpty(property: bool)
    ensures Decoded("", property) == ""
  {
  }

  /** What the runner toolkit writes for a character. */
  function EscapeChar(c: char, property: bool): string {
    if c == '%' then "%25"
    else if c == '\n' then "%0A"
    else if c == '\r' then "%0D"
    else if property && c == ':' then "%3A"
    else if property && c == ',' then "%2C"
    else [c]
  }

  function Escape(s: string, property: bool): string {
    if s == "" then "" else Escape(s[..|s| - 1], property) + EscapeChar(s[|s| - 1], property)
  }

  lemma {:induction false} EscapeFront(c: char, s: string, property: bool)
    ensures Escape([c] + s, property) == EscapeChar(c, property) + Escape(s, property)
  {
    hide EscapeChar;
    if s == "" {
      assert [c] + s == [c] && [c][..0] == "";
    } else {
      assert ([c] + s)[..|s|] == [c] + s[..|s| - 1];
      EscapeFront(c, s[..|s| - 1], property);
    }
  }

  lemma DecodeChar(c: char, rest: string, property: bool)
    ensures Decoded(EscapeChar(c, property) + rest, property) == [c] + Decoded(rest, property)
  {
    var e := EscapeChar(c, property);
    var s := e + rest;
    assert s[|e|..] == rest;
    if |e| == 3 {
      assert Code(e[1], e[2], property) == Some(c);
    } else {
      assert e == [c] && c != '%';
    }
  }

  /** Decoding undoes the escapes of every text. */
  lemma {:induction false} DecodeEscape(s: string, property: bool)
    ensures Decoded(Escape(s, property), property) == s
  {
    if s != "" {
      EscapeFront(s[0], s[1..], property);
      assert s == [s[0]] + s[1..];
      DecodeChar(s[0], Escape(s[1..], property), property);
      hide Decoded, EscapeChar;
      DecodeEscape(s[1..], property);
    }
  }

  lemma {:induction false} EscapedProperty(s: string)
    ensures ':' !in Escape(s, true) && ',' !in Escape(s, true)
  {
    if s != "" {
      EscapedProperty(s[..|s| - 1]);
    }
  }

  // ---------------------------------------------------------------- parsing

  /** strings.IndexAny(header, " \t"), or the length. */
  function FirstBlank(s: string): (i: nat)
    ensures i <= |s| && forall j :: 0 <= j < i ==> s[j] != ' ' && s[j] != '\t'
    ensures i < |s| ==> s[i] == ' ' || s[i] == '\t'
  {
    if s == "" || s[0] == ' ' || s[0] == '\t' then 0 else 1 + FirstBlank(s[1..])
  }

  /** One key=value. */
  function Property(h: Host, item: string): Option<(string, string)> {
    var i := IndexOf(item, "=");
    if i < 0 || i >= |item| || Trim(item[..i]) == "" then None
    else Some((h.lower(Trim(item[..i])), Decoded(item[i + 1..], true)))
  }

  /** Properties from left to right; of equal keys the last one counts. */
  function Properties(h: Host, items: seq<string>): Option<map<string, string>> {
    if items == [] then Some(map[])
    else
      var before := Properties(h, items[..|items| - 1]);
      var last := Property(h, items[|items| - 1]);
      if before.None? || last.None? then None else Some(before.value[last.value.0 := last.value.1])
  }

  function ParseHeader(h: Host, header: string, data: string): Parsed {
    var i := FirstBlank(header);
    var name := h.lower(Trim(header[..i]));
    var text := if i < |header| then Trim(header[i + 1..]) else "";
    if name == "" then Malformed
    else if text == "" then Parsed(Command(name, map[], Decoded(data, false)))
    else
      var properties := Properties(h, Split(text, ','));
      if properties.None? then Malformed else Parsed(Command(name, properties.value, Decoded(data, false)))
  }

  function Parse(h: Host, line: string): Parsed {
    if !("::" <= line) then NoCommand
    else if Size(line) > MAX_COMMAND_BYTES then Malformed
    else
      var i := IndexOf(line[2..], "::");
      if i < 0 || i + 2 > |line[2..]| then Malformed else ParseHeader(h, line[2..][..i], line[2..][i + 2..])
  }

  method ParseWorkflowCommand(h: Host, line: string) returns (r: Parsed)
    ensures r == Parse(h, line)
  {
    hide Properties, Decoded, Size;
    if !("::" <= line) {
      return NoCommand;
    }
    if Size(line) > MAX_COMMAND_BYTES {
      return Malformed;
    }
    var remainder := line[2..];
    var separator := IndexOf(remainder, "::");
    if separator < 0 {
      return Malformed;
    }
    assert "::" <= remainder[separator..];
    var header, data := remainder[..separator], remainder[separator + 2..];
    var split := FirstBlank(header);
    var name, text := h.lower(Trim(header[..split])), "";
    if split < |header| {
      text := Trim(header[split + 1..]);
    }
    if name == "" {
      return Malformed;
    }
    var decoded := DecodeWorkflowValue(data, false);
    if text == "" {
      return Parsed(Command(name, map[], decoded));
    }
    var properties := ParseProperties(h, Split(text, ','));
    return if properties.None? then Malformed else Parsed(Command(name, properties.value, decoded));
  }

  method ParseProperties(h: Host, items: seq<string>) returns (r: Option<map<string, string>>)
    ensures r == Properties(h, items)
  {
    hide Property;
    var properties: map<string, string> := map[];
    for n := 0 to |items|
      invariant Properties(h, items[..n]) == Some(properties)
    {
      assert items[..n + 1][..n] == items[..n];
      var property := Property(h, items[n]);
      if property.None? {
        PropertiesStop(h, items, n + 1);
        return None;
      }
      properties := properties[property.value.0 := property.value.1];
    }
    assert items[..|items|] == items;
    return Some(properties);
  }

  lemma {:induction false} PropertiesStop(h: Host, items: seq<string>, n: nat)
    requires n <= |items| && Properties(h, items[..n]).None?
    ensures Properties(h, items).None?
    decreases |items|
  {
    if n < |items| {
      assert items[..|items| - 1][..n] == items[..n];
      PropertiesStop(h, items[..|items| - 1], n);
    } else {
      assert items[..n] == items;
    }
  }

  // --------------------------------------------------------------- printing

  type Pairs = seq<(string, string)>

  function Item(pair: (string, string)): string {
    pair.0 + "=" + Escape(pair.1, true)
  }

  function Items(pairs: Pairs): (r: seq<string>)
    ensures |r| == |pairs|
  {
    seq(|pairs|, i requires 0 <= i < |pairs| => Item(pairs[i]))
  }

  function Print(name: string, pairs: Pairs, data: string): string {
    "::" + name + (if pairs == [] then "" else " " + Join(Items(pairs), ',')) + "::" + Escape(data, false)
  }

  function Assigned(pairs: Pairs): map<string, string> {
    if pairs == [] then map[] else Assigned(pairs[..|pairs| - 1])[pairs[|pairs| - 1].0 := pairs[|pairs| - 1].1]
  }

  /** A name or a key that reads back as it was written. */
  predicate Word(h: Host, s: string) {
    s != "" && Trimmed(s) && h.lower(s) == s && ':' !in s && ',' !in s && '=' !in s
  }

  predicate Printable(h: Host, name: string, pairs: Pairs) {
    && Word(h, name) && ' ' !in name && '\t' !in name
    && forall p :: p in pairs ==> Word(h, p.0)
  }

  /** A blank the escapes leave as it is. */
  predicate BareBlank(c: char) {
    IsSpace(c) && c != '\r' && c != '\n'
  }

  /** A value without the bare blanks at its end. */
  function Chopped(v: string): (r: string)
    ensures r == v <==> v == "" || !BareBlank(v[|v| - 1])
    ensures |r| <= |v|
  {
    if v == "" || !BareBlank(v[|v| - 1]) then v else Chopped(v[..|v| - 1])
  }

  /** The properties a command reads back: the last value loses its bare blanks at the end. */
  function ReadBack(pairs: Pairs): (r: Pairs)
    ensures |r| == |pairs|
  {
    if pairs == [] then [] else pairs[..|pairs| - 1] + [(pairs[|pairs| - 1].0, Chopped(pairs[|pairs| - 1].1))]
  }

  lemma PropertyReadsBack(h: Host, pair: (string, string))
    requires Word(h, pair.0)
    ensures Property(h, Item(pair)) == Some(pair)
  {
    IndexBehind(pair.0, "=", Escape(pair.1, true));
    DecodeEscape(pair.1, true);
    assert Item(pair)[..|pair.0|] == pair.0;
    assert Item(pair)[|pair.0| + 1..] == Escape(pair.1, true);
  }

  lemma {:induction false} PropertiesReadBack(h: Host, pairs: Pairs)
    requires forall p :: p in pairs ==> Word(h, p.0)
    ensures Properties(h, Items(pairs)) == Some(Assigned(pairs))
  {
    hide Item, Property;
    if pairs != [] {
      var n := |pairs| - 1;
      PropertiesReadBack(h, pairs[..n]);
      assert Items(pairs)[..n] == Items(pairs[..n]);
      PropertyReadsBack(h, pairs[n]);
    }
  }

  lemma ItemClean(h: Host, pair: (string, string))
    requires Word(h, pair.0)
    ensures ',' !in Item(pair) && ':' !in Item(pair) && Item(pair) != "" && !IsSpace(Item(pair)[0])
  {
    EscapedProperty(pair.1);
  }

  /** The text of the properties: no colon in it, and it starts with no blank. */
  lemma {:induction false} TextClean(h: Host, pairs: Pairs)
    requires pairs != [] && forall p :: p in pairs ==> Word(h, p.0)
    ensures var text := Join(Items(pairs), ','); ':' !in text && text != "" && !IsSpace(text[0])
  {
    hide Item, Word;
    ItemClean(h, pairs[0]);
    if |pairs| > 1 {
      assert Items(pairs)[1..] == Items(pairs[1..]);
      TextClean(h, pairs[1..]);
    }
  }

  /** The text of the properties grows at its end with the last value. */
  lemma {:induction false} TextGrows(pairs: Pairs, key: string, v: string, b: char)
    requires BareBlank(b)
    ensures Join(Items(pairs + [(key, v + [b])]), ',') == Join(Items(pairs + [(key, v)]), ',') + [b]
  {
    if pairs == [] {
      assert (v + [b])[..|v|] == v;
      assert Item((key, v + [b])) == Item((key, v)) + [b];
    } else {
      TextGrows(pairs[1..], key, v, b);
      assert Items(pairs + [(key, v + [b])])[1..] == Items(pairs[1..] + [(key, v + [b])]);
      assert Items(pairs + [(key, v)])[1..] == Items(pairs[1..] + [(key, v)]);
    }
  }

  lemma {:induction false} TextTrims(h: Host, pairs: Pairs, key: string, v: string)
    requires (forall p :: p in pairs ==> Word(h, p.0)) && Word(h, key)
    ensures Trim(Join(Items(pairs + [(key, v)]), ',')) == Join(Items(pairs + [(key, Chopped(v))]), ',')
    decreases |v|
  {
    hide Item, Word;
    var text := Join(Items(pairs + [(key, v)]), ',');
    TextClean(h, pairs + [(key, v)]);
    if v != "" && BareBlank(v[|v| - 1]) {
      var w, b := v[..|v| - 1], v[|v| - 1];
      assert v == w + [b];
      TextGrows(pairs, key, w, b);
      TextClean(h, pairs + [(key, w)]);
      var shorter := Join(Items(pairs + [(key, w)]), ',');
      assert text == shorter + [b] && text[..|shorter|] == shorter;
      assert Trim(text) == Trim(shorter);
      TextTrims(h, pairs, key, w);
    } else {
      TextEnds(pairs, key, v);
      assert Trimmed(text);
    }
  }

  lemma {:induction false} TextEnds(pairs: Pairs, key: string, v: string)
    requires v == "" || !BareBlank(v[|v| - 1])
    ensures var text := Join(Items(pairs + [(key, v)]), ','); text != "" && !IsSpace(text[|text| - 1])
  {
    if pairs == [] {
      var item := Item((key, v));
      assert v == "" ==> item[|item| - 1] == '=';
      if v != "" {
        var e := EscapeChar(v[|v| - 1], true);
        assert item[|item| - 1] == e[|e| - 1];
      }
    } else {
      TextEnds(pairs[1..], key, v);
      assert Items(pairs + [(key, v)])[1..] == Items(pairs[1..] + [(key, v)]);
    }
  }

  lemma WordClean(h: Host, s: string)
    requires Word(h, s)
    ensures ':' !in s
  {
  }

  /** Text with no colon before the second pair of colons is the header. */
  lemma HeaderFound(h: Host, header: string, data: string)
    requires ':' !in header && Size("::" + header + "::" + data) <= MAX_COMMAND_BYTES
    ensures Parse(h, "::" + header + "::" + data) == ParseHeader(h, header, data)
  {
    hide ParseHeader, Size;
    var line := "::" + header + "::" + data;
    assert line[2..] == header + "::" + data;
    IndexBehind(header, "::", data);
    assert line[2..][..|header|] == header && line[2..][|header| + 2..] == data;
  }

  function Header(name: string, pairs: Pairs): string {
    name + if pairs == [] then "" else " " + Join(Items(pairs), ',')
  }

  lemma HeaderClean(h: Host, name: string, pairs: Pairs)
    requires Printable(h, name, pairs)
    ensures ':' !in Header(name, pairs)
  {
    hide Join, Word;
    WordClean(h, name);
    if pairs != [] {
      TextClean(h, pairs);
    }
  }

  /** A printed command within the size limit parses back to its name, its data and its
      properties, the last value without the bare blanks at its end. */
  lemma CommandReadsBack(h: Host, name: string, pairs: Pairs, data: string)
    requires Printable(h, name, pairs) && Size(Print(name, pairs, data)) <= MAX_COMMAND_BYTES
    ensures Parse(h, Print(name, pairs, data)) == Parsed(Command(name, Assigned(ReadBack(pairs)), data))
  {
    assert Print(name, pairs, data) == "::" + Header(name, pairs) + "::" + Escape(data, false) by {
      hide Join, Items, Escape;
    }
    hide *;
    HeaderClean(h, name, pairs);
    HeaderFound(h, Header(name, pairs), Escape(data, false));
    DecodeEscape(data, false);
    HeaderReadsBack(h, name, pairs, Escape(data, false));
  }

  lemma {:induction false} BlankBehind(name: string, rest: string)
    requires ' ' !in name && '\t' !in name
    ensures FirstBlank(name + rest) == |name| + FirstBlank(rest)
  {
    if name == "" {
      assert name + rest == rest;
    } else {
      assert name[0] in name && (name + rest)[1..] == name[1..] + rest;
      BlankBehind(name[1..], rest);
    }
  }

  /** Header and properties text come apart at the first blank. */
  lemma HeaderSplits(name: string, text: string)
    requires ' ' !in name && '\t' !in name
    ensures var header := name + " " + text;
            FirstBlank(header) == |name| && header[..|name|] == name && header[|name| + 1..] == text
    ensures FirstBlank(name) == |name|
  {
    BlankBehind(name, " " + text);
    assert name + " " + text == name + (" " + text);
    BlankBehind(name, "");
    assert name + "" == name;
  }

  /** The properties text, trimmed and split, is that of the properties read back. */
  lemma TextSplits(h: Host, pairs: Pairs)
    requires pairs != [] && forall p :: p in pairs ==> Word(h, p.0)
    ensures var text := Trim(Join(Items(pairs), ','));
            text != "" && Split(text, ',') == Items(ReadBack(pairs))
    ensures forall p :: p in ReadBack(pairs) ==> Word(h, p.0)
  {
    hide Word, Item, Split;
    var n, back := |pairs| - 1, ReadBack(pairs);
    assert pairs == pairs[..n] + [(pairs[n].0, pairs[n].1)];
    TextTrims(h, pairs[..n], pairs[n].0, pairs[n].1);
    TextClean(h, back);
    forall x | x in Items(back) ensures ',' !in x {
      var j :| 0 <= j < |back| && x == Item(back[j]);
      ItemClean(h, back[j]);
    }
    SplitJoin(Items(back), ',');
  }

  lemma HeaderReadsBack(h: Host, name: string, pairs: Pairs, data: string)
    requires Printable(h, name, pairs)
    ensures ParseHeader(h, Header(name, pairs), data) ==
        Parsed(Command(name, Assigned(ReadBack(pairs)), Decoded(data, false)))
  {
    hide Properties, Items, Decoded, FirstBlank, Join, Split, Trim, Assigned, ReadBack, Word;
    NameReadsBack(h, name);
    var text := Join(Items(pairs), ',');
    HeaderSplits(name, text);
    if pairs == [] {
      assert Header(name, pairs) == name && name[..|name|] == name;
      NothingAssigned(pairs);
    } else {
      assert Header(name, pairs) == name + " " + text;
      TextSplits(h, pairs);
      PropertiesReadBack(h, ReadBack(pairs));
    }
  }

  lemma NameReadsBack(h: Host, name: string)
    requires Word(h, name)
    ensures h.lower(Trim(name)) == name != ""
  {
  }

  lemma NothingAssigned(pairs: Pairs)
    requires pairs == []
    ensures Assigned(ReadBack(pairs)) == map[]
  {
  }

  lemma {:induction false} AssignedLast(pairs: Pairs)
    requires pairs != []
    ensures var last := pairs[|pairs| - 1]; last.0 in Assigned(pairs) && Assigned(pairs)[last.0] == last.1
  {
  }

  predicate CleanEnd(pairs: Pairs) {
    pairs == [] || pairs[|pairs| - 1].1 == "" || !BareBlank(pairs[|pairs| - 1].1[|pairs[|pairs| - 1].1| - 1])
  }

  lemma ReadBackSame(pairs: Pairs)
    ensures Assigned(ReadBack(pairs)) == Assigned(pairs) <==> CleanEnd(pairs)
  {
    hide Assigned, BareBlank;
    if pairs != [] {
      var n := |pairs| - 1;
      AssignedLast(pairs);
      AssignedLast(ReadBack(pairs));
      if CleanEnd(pairs) {
        assert pairs == pairs[..n] + [(pairs[n].0, pairs[n].1)];
      } else {
        assert Chopped(pairs[n].1) != pairs[n].1;
      }
    }
  }

  /** The round trip, and exactly when it holds: no bare blank ends the last value. */
  lemma CommandRoundTrip(h: Host, name: string, pairs: Pairs, data: string)
    requires Printable(h, name, pairs) && Size(Print(name, pairs, data)) <= MAX_COMMAND_BYTES
    ensures Parse(h, Print(name, pairs, data)) == Parsed(Command(name, Assigned(pairs), data)) <==> CleanEnd(pairs)
  {
    hide *;
    CommandReadsBack(h, name, pairs, data);
    ReadBackSame(pairs);
  }
}
