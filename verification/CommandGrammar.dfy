// What a workflow command line says, without reading it from left to right.
module CommandGrammar {
  import opened Text
  import opened Search
  import opened CommandSyntax

  // ---------------------------------------------------------------- escapes

  /** The three characters that stand for one, in data and in a property. */
  predicate Stands(piece: string, c: char, property: bool) {
    || (piece == "%25" && c == '%')
    || ((piece == "%0A" || piece == "%0a") && c == '\n')
    || ((piece == "%0D" || piece == "%0d") && c == '\r')
    || (property && (piece == "%3A" || piece == "%3a") && c == ':')
    || (property && (piece == "%2C" || piece == "%2c") && c == ',')
  }

  predicate EscapeOf(s: string, i: int, c: char, property: bool) {
    0 <= i && i + 3 <= |s| && Stands(s[i..i + 3], c, property)
  }

  ghost predicate EscapeAt(s: string, i: int, property: bool) {
    exists c :: EscapeOf(s, i, c, property)
  }

  /** The piece of s from i to j is an escape of c, or c itself where no escape begins. */
  ghost predicate Means(s: string, i: int, j: int, c: char, property: bool) {
    && 0 <= i < j <= |s|
    && (|| (j == i + 3 && EscapeOf(s, i, c, property))
        || (j == i + 1 && s[i] == c && !EscapeAt(s, i, property)))
  }

  /** The cuts take s apart into the pieces that mean the characters of r. */
  ghost predicate Decodes(s: string, cuts: seq<int>, r: string, property: bool) {
    && |cuts| == |r| + 1 && cuts[0] == 0 && cuts[|r|] == |s|
    && forall k :: 0 <= k < |r| ==> Means(s, cuts[k], cuts[k + 1], r[k], property)
  }

  ghost predicate Decoding(s: string, r: string, property: bool) {
    exists cuts :: Decodes(s, cuts, r, property)
  }

  lemma EscapeIsCode(s: string, property: bool)
    requires s != ""
    ensures EscapeAt(s, 0, property) <==> s[0] == '%' && |s| > 2 && Code(s[1], s[2], property).Some?
    ensures forall c :: EscapeAt(s, 0, property) ==>
        (EscapeOf(s, 0, c, property) <==> Code(s[1], s[2], property) == Some(c))
  {
    if |s| > 2 {
      var piece := s[0..3];
      assert piece == [s[0], s[1], s[2]];
      forall c ensures Stands(piece, c, property) <==> s[0] == '%' && Code(s[1], s[2], property) == Some(c) {
      }
      if s[0] == '%' && Code(s[1], s[2], property).Some? {
        assert EscapeOf(s, 0, Code(s[1], s[2], property).value, property);
      }
    }
  }

  lemma MeansBehind(s: string, n: nat, i: int, j: int, c: char, property: bool)
    requires n <= |s| && 0 <= i
    ensures Means(s[n..], i, j, c, property) <==> Means(s, i + n, j + n, c, property)
  {
    if i + 3 <= |s| - n {
      assert s[n..][i..i + 3] == s[i + n..i + n + 3];
    }
    var m := i + n;
    if e :| EscapeOf(s[n..], i, e, property) {
      assert EscapeOf(s, m, e, property);
    }
    if e :| EscapeOf(s, m, e, property) {
      assert EscapeOf(s[n..], i, e, property);
    }
  }

  /** A text decodes to the characters its pieces mean, and to nothing else. */
  lemma DecodedExactly(s: string, r: string, property: bool)
    ensures r == Decoded(s, property) <==> Decoding(s, r, property)
  {
    hide Decodes, Decoded;
    if r == Decoded(s, property) {
      DecodedCuts(s, property);
    }
    if Decoding(s, r, property) {
      var cuts :| Decodes(s, cuts, r, property);
      CutsDecode(s, cuts, r, property);
    }
  }

  /** How the decoder goes on behind its first piece. */
  lemma DecodedStep(s: string, property: bool) returns (n: nat, c: char)
    requires s != ""
    ensures Means(s, 0, n, c, property) && n <= |s| && Decoded(s, property) == [c] + Decoded(s[n..], property)
    ensures forall j, d :: Means(s, 0, j, d, property) ==> j == n && d == c
  {
    hide Code;
    EscapeIsCode(s, property);
    if EscapeAt(s, 0, property) {
      n, c := 3, Code(s[1], s[2], property).value;
      assert EscapeOf(s, 0, c, property);
    } else {
      n, c := 1, s[0];
    }
  }

  lemma {:induction false} DecodedCuts(s: string, property: bool)
    ensures Decoding(s, Decoded(s, property), property)
    decreases |s|
  {
    hide Means;
    if s == "" {
      assert Decodes(s, [0], "", property);
    } else {
      var n, c := DecodedStep(s, property);
      MeansFirst(s, n, c, property);
      DecodedCuts(s[n..], property);
      var rest := Decoded(s[n..], property);
      var cuts :| Decodes(s[n..], cuts, rest, property);
      CutsGrow(s, n, c, cuts, rest, property);
    }
  }

  lemma MeansFirst(s: string, n: int, c: char, property: bool)
    requires Means(s, 0, n, c, property)
    ensures 0 < n <= |s|
  {
  }

  lemma CutsGrow(s: string, n: nat, c: char, cuts: seq<int>, rest: string, property: bool)
    requires Means(s, 0, n, c, property) && 0 < n <= |s| && Decodes(s[n..], cuts, rest, property)
    ensures Decoding(s, [c] + rest, property)
  {
    hide Means;
    var longer := [0] + seq(|cuts|, k requires 0 <= k < |cuts| => cuts[k] + n);
    forall k | 0 <= k < |rest| + 1 ensures Means(s, longer[k], longer[k + 1], ([c] + rest)[k], property) {
      if k > 0 {
        assert Means(s[n..], cuts[k - 1], cuts[k], rest[k - 1], property);
        MeansOrder(s[n..], cuts[k - 1], cuts[k], rest[k - 1], property);
        MeansBehind(s, n, cuts[k - 1], cuts[k], rest[k - 1], property);
      }
    }
    assert Decodes(s, longer, [c] + rest, property);
  }

  lemma MeansOrder(s: string, i: int, j: int, c: char, property: bool)
    requires Means(s, i, j, c, property)
    ensures 0 <= i < j <= |s|
  {
  }

  lemma {:induction false} CutsDecode(s: string, cuts: seq<int>, r: string, property: bool)
    requires Decodes(s, cuts, r, property)
    ensures r == Decoded(s, property)
    decreases |r|
  {
    hide Means;
    if r == "" {
      assert s == "";
    } else {
      MeansOrder(s, cuts[0], cuts[1], r[0], property);
      var n, c := DecodedStep(s, property);
      assert cuts[1] == n && r[0] == c;
      var shorter := seq(|r|, k requires 0 <= k < |r| => cuts[k + 1] - n);
      forall k | 0 <= k < |r| - 1 ensures Means(s[n..], shorter[k], shorter[k + 1], r[1..][k], property) {
        assert Means(s, cuts[k + 1], cuts[k + 2], r[k + 1], property);
        CutsRise(s, cuts, r, k + 1, property);
        MeansBehind(s, n, shorter[k], shorter[k + 1], r[k + 1], property);
      }
      CutsDecode(s[n..], shorter, r[1..], property);
      assert r == [r[0]] + r[1..];
    }
  }

  lemma {:induction false} CutsRise(s: string, cuts: seq<int>, r: string, k: nat, property: bool)
    requires Decodes(s, cuts, r, property) && 1 <= k <= |r|
    ensures cuts[1] <= cuts[k]
  {
    hide Means;
    if k > 1 {
      CutsRise(s, cuts, r, k - 1, property);
      assert Means(s, cuts[k - 1], cuts[k], r[k - 1], property);
      MeansOrder(s, cuts[k - 1], cuts[k], r[k - 1], property);
    }
  }

  // ------------------------------------------------------------- properties

  /** The item gives the key a value: text, the first equals sign, text. */
  ghost predicate GivesAt(h: Host, item: string, i: int, key: string, value: string) {
    && 0 <= i < |item| && item[i] == '=' && '=' !in item[..i]
    && Trim(item[..i]) != "" && key == h.lower(Trim(item[..i])) && Decoding(item[i + 1..], value, true)
  }

  ghost predicate Gives(h: Host, item: string, key: string, value: string) {
    exists i :: GivesAt(h, item, i, key, value)
  }

  lemma GivesIs(h: Host, item: string, key: string, value: string)
    ensures Gives(h, item, key, value) <==> Property(h, item) == Some((key, value))
  {
    hide Decoding, Trim, Decoded;
    var i := IndexOf(item, "=");
    FirstEquals(item, i);
    if 0 <= i < |item| {
      DecodedExactly(item[i + 1..], value, true);
      if Property(h, item) == Some((key, value)) {
        assert GivesAt(h, item, i, key, value);
      }
    }
    if j :| GivesAt(h, item, j, key, value) {
      EqualsAt(item, j);
    }
  }

  lemma FirstEquals(item: string, i: int)
    requires i == IndexOf(item, "=")
    ensures if i < 0 then '=' !in item else i < |item| && item[i] == '=' && '=' !in item[..i]
  {
    if i < 0 {
      forall k | 0 <= k < |item| ensures item[k] != '=' {
        assert !OccursAt(item, "=", k);
        assert item[k..][0] == item[k];
      }
    } else {
      assert item[i..][0] == item[i];
      forall k | 0 <= k < i ensures item[k] != '=' {
        assert !OccursAt(item, "=", k);
        assert item[k..][0] == item[k];
      }
    }
  }

  lemma EqualsAt(item: string, j: int)
    requires 0 <= j < |item| && item[j] == '=' && '=' !in item[..j]
    ensures IndexOf(item, "=") == j
  {
    var i := IndexOf(item, "=");
    FirstEquals(item, i);
    assert item[j..][0] == item[j];
    assert OccursAt(item, "=", j);
  }

  /** Item n gives the key the value, and no later item gives it one. */
  ghost predicate LastGives(h: Host, items: seq<string>, n: int, key: string, value: string) {
    && 0 <= n < |items| && Gives(h, items[n], key, value)
    && forall l, w :: n < l < |items| ==> !Gives(h, items[l], key, w)
  }

  ghost predicate GivesOne(h: Host, item: string) {
    exists key, value :: Gives(h, item, key, value)
  }

  ghost predicate Finally(h: Host, items: seq<string>, key: string, value: string) {
    exists n :: LastGives(h, items, n, key, value)
  }

  /** Every item gives something, and a key has the value it is given last. */
  ghost predicate Gathers(h: Host, items: seq<string>, m: map<string, string>) {
    && (forall n :: 0 <= n < |items| ==> GivesOne(h, items[n]))
    && forall key, value :: Finally(h, items, key, value) <==> key in m && m[key] == value
  }

  lemma FinallyStep(h: Host, items: seq<string>, item: string, key: string, value: string)
    ensures Finally(h, items + [item], key, value) <==>
            Gives(h, item, key, value) || ((forall w :: !Gives(h, item, key, w)) && Finally(h, items, key, value))
  {
    hide Gives;
    var all := items + [item];
    if n :| LastGives(h, all, n, key, value) {
      if n < |items| {
        assert forall w :: !Gives(h, all[|items|], key, w);
        assert forall l :: n < l < |items| ==> all[l] == items[l];
        assert LastGives(h, items, n, key, value);
      }
    }
    if Gives(h, item, key, value) {
      assert LastGives(h, all, |items|, key, value);
    }
    if (forall w :: !Gives(h, item, key, w)) && Finally(h, items, key, value) {
      var n :| LastGives(h, items, n, key, value);
      forall l, w | n < l < |all| ensures !Gives(h, all[l], key, w) {
        assert l < |items| ==> all[l] == items[l];
      }
      assert LastGives(h, all, n, key, value);
    }
  }

  /** The parsed properties are those the items give. */
  lemma PropertiesExactly(h: Host, items: seq<string>, m: map<string, string>)
    ensures Properties(h, items) == Some(m) <==> Gathers(h, items, m)
  {
    hide Gives, Property, Properties, Finally;
    PropertiesGather(h, items);
    if Gathers(h, items, m) {
      var n := Properties(h, items).value;
      forall key ensures key in m <==> key in n {
        assert key in m ==> Finally(h, items, key, m[key]);
        assert key in n ==> Finally(h, items, key, n[key]);
      }
      forall key | key in m ensures m[key] == n[key] {
        assert Finally(h, items, key, m[key]);
      }
      assert m == n;
    }
  }

  lemma {:induction false} PropertiesGather(h: Host, items: seq<string>)
    ensures if Properties(h, items).Some? then Gathers(h, items, Properties(h, items).value)
            else exists n :: 0 <= n < |items| && !GivesOne(h, items[n])
  {
    hide Gives, Property;
    if items == [] {
      assert forall key, value :: !Finally(h, items, key, value);
    } else {
      var n := |items| - 1;
      var rest, last := items[..n], Property(h, items[n]);
      assert items == rest + [items[n]];
      forall key, value ensures Gives(h, items[n], key, value) <==> last == Some((key, value)) {
        GivesIs(h, items[n], key, value);
      }
      PropertiesGather(h, rest);
      if Properties(h, rest).None? {
        var k :| 0 <= k < |rest| && !GivesOne(h, rest[k]);
        assert items[k] == rest[k];
      } else if last.None? {
        assert !GivesOne(h, items[n]);
      } else {
        GathersStep(h, rest, items[n], last.value, Properties(h, rest).value);
      }
    }
  }

  lemma GathersStep(h: Host, rest: seq<string>, item: string, last: (string, string), m: map<string, string>)
    requires Gathers(h, rest, m) && forall key, value :: Gives(h, item, key, value) <==> last == (key, value)
    ensures Gathers(h, rest + [item], m[last.0 := last.1])
  {
    hide Gives, Finally;
    var all, longer := rest + [item], m[last.0 := last.1];
    assert Gives(h, item, last.0, last.1);
    forall key, value ensures Finally(h, all, key, value) <==> key in longer && longer[key] == value {
      FinallyStep(h, rest, item, key, value);
    }
    forall n | 0 <= n < |all| ensures GivesOne(h, all[n]) {
      assert n < |rest| ==> all[n] == rest[n];
    }
  }

  // ---------------------------------------------------------------- commands

  predicate Blank(c: char) {
    c == ' ' || c == '\t'
  }

  /** The list is the text taken apart at its commas. */
  ghost predicate Listed(text: string, items: seq<string>) {
    items != [] && (forall x :: x in items ==> ',' !in x) && Join(items, ',') == text
  }

  /** The header is a name, and behind its first blank the properties, if any. */
  ghost predicate HeaderAt(h: Host, header: string, i: int, name: string, m: map<string, string>) {
    && 0 <= i <= |header| && (forall k :: 0 <= k < i ==> !Blank(header[k]))
    && (i < |header| ==> Blank(header[i]))
    && name != "" && name == h.lower(Trim(header[..i]))
    && PropertiesAre(h, if i < |header| then Trim(header[i + 1..]) else "", m)
  }

  ghost predicate PropertiesAre(h: Host, text: string, m: map<string, string>) {
    if text == "" then m == map[] else exists items :: Listed(text, items) && Gathers(h, items, m)
  }

  /** The line is two colons, a header, the next two colons, and the data. */
  ghost predicate SpelledAt(h: Host, line: string, i: int, at: int, c: Command) {
    && "::" <= line && Size(line) <= MAX_COMMAND_BYTES
    && 2 <= at && at + 2 <= |line| && OccursAt(line, "::", at)
    && (forall k :: 2 <= k < at ==> !OccursAt(line, "::", k))
    && HeaderAt(h, line[2..at], i, c.name, c.properties) && Decoding(line[at + 2..], c.data, false)
  }

  ghost predicate Spelled(h: Host, line: string, c: Command) {
    exists i, at :: SpelledAt(h, line, i, at, c)
  }

  lemma {:induction false} SplitListed(s: string, items: seq<string>)
    ensures items == Split(s, ',') <==> Listed(s, items)
  {
    JoinSplit(s, ',');
    if items == Split(s, ',') {
      PiecesClean(s);
    }
    if Listed(s, items) {
      SplitJoin(items, ',');
    }
  }

  lemma {:induction false} PiecesClean(s: string)
    ensures forall x :: x in Split(s, ',') ==> ',' !in x
  {
    if s != "" {
      PiecesClean(s[1..]);
    }
  }

  lemma PropertiesAreExactly(h: Host, text: string, m: map<string, string>)
    ensures PropertiesAre(h, text, m) <==>
            (if text == "" then m == map[] else Properties(h, Split(text, ',')) == Some(m))
  {
    hide Listed, Gathers, Properties, Split;
    if text != "" {
      SplitListed(text, Split(text, ','));
      PropertiesExactly(h, Split(text, ','), m);
      if items :| Listed(text, items) && Gathers(h, items, m) {
        SplitListed(text, items);
      }
    }
  }

  lemma HeaderExactly(h: Host, header: string, data: string, c: Command)
    ensures ParseHeader(h, header, data) == Parsed(c) <==>
            c.data == Decoded(data, false) && exists i :: HeaderAt(h, header, i, c.name, c.properties)
  {
    hide Decoded, Trim, PropertiesAre, Properties, Split;
    var i := FirstBlank(header);
    var text := if i < |header| then Trim(header[i + 1..]) else "";
    PropertiesAreExactly(h, text, c.properties);
    if ParseHeader(h, header, data) == Parsed(c) {
      assert HeaderAt(h, header, i, c.name, c.properties);
    }
    if k :| HeaderAt(h, header, k, c.name, c.properties) {
      assert k == i;
    }
  }

  lemma SeparatorAt(line: string, at: int)
    requires "::" <= line && 2 <= at && at + 2 <= |line|
    ensures IndexOf(line[2..], "::") == at - 2 <==>
            OccursAt(line, "::", at) && forall k :: 2 <= k < at ==> !OccursAt(line, "::", k)
  {
    var rest := line[2..];
    forall k | 2 <= k <= |line| ensures OccursAt(line, "::", k) <==> OccursAt(rest, "::", k - 2) {
      assert line[k..] == rest[k - 2..];
    }
    if OccursAt(line, "::", at) && forall k :: 2 <= k < at ==> !OccursAt(line, "::", k) {
      assert forall j :: 0 <= j < at - 2 ==> OccursAt(rest, "::", j) == OccursAt(line, "::", j + 2);
      FirstPlace(rest, "::", at - 2);
    }
    if IndexOf(rest, "::") == at - 2 {
      assert forall k :: 2 <= k < at ==> OccursAt(line, "::", k) == OccursAt(rest, "::", k - 2);
    }
  }

  lemma ParseAt(h: Host, line: string, i: int, at: int, c: Command)
    requires SpelledAt(h, line, i, at, c)
    ensures Parse(h, line) == Parsed(c)
  {
    hide Size, ParseHeader, HeaderAt, Decoding, Decoded, OccursAt;
    SeparatorAt(line, at);
    assert line[2..][..at - 2] == line[2..at] && line[2..][at..] == line[at + 2..];
    HeaderExactly(h, line[2..at], line[at + 2..], c);
    DecodedExactly(line[at + 2..], c.data, false);
  }

  lemma HeaderIsNoText(h: Host, header: string, data: string)
    ensures !ParseHeader(h, header, data).NoCommand?
  {
  }

  /** The parser accepts exactly what spells a command, and reads that command. */
  lemma ParseExactly(h: Host, line: string, c: Command)
    ensures Parse(h, line) == Parsed(c) <==> Spelled(h, line, c)
    ensures Parse(h, line).NoCommand? <==> !("::" <= line)
  {
    hide Size, ParseHeader, HeaderAt, Decoding, Decoded, OccursAt;
    forall header, data ensures !ParseHeader(h, header, data).NoCommand? {
      HeaderIsNoText(h, header, data);
    }
    if Parse(h, line) == Parsed(c) {
      var at := IndexOf(line[2..], "::") + 2;
      SeparatorAt(line, at);
      assert line[2..][..at - 2] == line[2..at] && line[2..][at..] == line[at + 2..];
      HeaderExactly(h, line[2..at], line[at + 2..], c);
      DecodedExactly(line[at + 2..], c.data, false);
      var i :| HeaderAt(h, line[2..at], i, c.name, c.properties);
      assert SpelledAt(h, line, i, at, c);
    }
    if i, at :| SpelledAt(h, line, i, at, c) {
      ParseAt(h, line, i, at, c);
    }
  }
}
