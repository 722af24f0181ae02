// Quoted text and the canonical form of coordinates, with the decoder that undoes them.
module Quoting {
  import opened Text

  /** strconv.IsPrint is the host's; everything else about strconv.Quote is here. */
  datatype Host = Host(printable: char -> bool)

  // ----------------------------------------------------------------- digits

  function Digit(n: nat): char
    requires n < 16
  {
    "0123456789abcdef"[n]
  }

  function DigitValue(c: char): nat {
    if '0' <= c <= '9' then c as int - '0' as int
    else if 'a' <= c <= 'f' then c as int - 'a' as int + 10
    else 0
  }

  function Hex(n: nat, width: nat): (r: string)
    ensures |r| == width
  {
    if width == 0 then "" else Hex(n / 16, width - 1) + [Digit(n % 16)]
  }

  function Unhex(s: string): nat {
    if s == "" then 0 else Unhex(s[..|s| - 1]) * 16 + DigitValue(s[|s| - 1])
  }

  function Power16(width: nat): nat {
    if width == 0 then 1 else 16 * Power16(width - 1)
  }

  lemma {:induction false} HexRoundTrip(n: nat, width: nat)
    requires n < Power16(width)
    ensures Unhex(Hex(n, width)) == n
  {
    hide Hex, Unhex, Digit, DigitValue;
    HexLast(n, width);
    if width > 0 {
      HexRoundTrip(n / 16, width - 1);
      UnhexLast(Hex(n / 16, width - 1), Digit(n % 16));
      DigitRoundTrip(n % 16);
    }
  }

  lemma HexLast(n: nat, width: nat)
    ensures Hex(n, width) == if width == 0 then "" else Hex(n / 16, width - 1) + [Digit(n % 16)]
    ensures Unhex("") == 0
  {
  }

  lemma UnhexLast(s: string, c: char)
    ensures Unhex(s + [c]) == Unhex(s) * 16 + DigitValue(c)
  {
    assert (s + [c])[..|s|] == s;
  }

  lemma DigitRoundTrip(n: nat)
    requires n < 16
    ensures DigitValue(Digit(n)) == n
  {
  }

  // ------------------------------------------------------------- characters

  /** How Quote writes one character. */
  function Escape(h: Host, c: char): (r: string)
    ensures r != "" && r[0] != '"'
  {
    if c == '"' || c == '\\' then ['\\', c]
    else if h.printable(c) then [c]
    else if c == '\U{7}' then "\\a"
    else if c == '\U{8}' then "\\b"
    else if c == '\U{C}' then "\\f"
    else if c == '\n' then "\\n"
    else if c == '\r' then "\\r"
    else if c == '\t' then "\\t"
    else if c == '\U{B}' then "\\v"
    else if c < ' ' || c == '\U{7F}' then "\\x" + Hex(c as int, 2)
    else if c as int < 0x10000 then "\\u" + Hex(c as int, 4)
    else "\\U" + Hex(c as int, 8)
  }

  /** The width of the number that follows a backslash and a letter. */
  function NumberWidth(letter: char): nat {
    if letter == 'x' then 2 else if letter == 'u' then 4 else if letter == 'U' then 8 else 0
  }

  function Named(letter: char): nat {
    if letter == 'a' then 7
    else if letter == 'b' then 8
    else if letter == 'f' then 12
    else if letter == 'n' then 10
    else if letter == 'r' then 13
    else if letter == 't' then 9
    else if letter == 'v' then 11
    else letter as int
  }

  /** The code of the first character of escaped text, and how many characters wrote it. */
  function Unescape(s: string): (nat, nat)
    requires s != ""
  {
    if s[0] != '\\' || |s| == 1 then (s[0] as int, 1)
    else
      var width := NumberWidth(s[1]);
      if width == 0 || |s| < 2 + width then (Named(s[1]), 2) else (Unhex(s[2..2 + width]), 2 + width)
  }

  lemma EscapeRoundTrip(h: Host, c: char, rest: string)
    ensures Unescape(Escape(h, c) + rest) == (c as int, |Escape(h, c)|)
  {
    var e := Escape(h, c);
    var s := e + rest;
    if |e| > 2 {
      var width := NumberWidth(e[1]);
      assert s[2..2 + width] == e[2..] == Hex(c as int, width);
      assert Power16(2) == 0x100 && Power16(4) == 0x10000 && Power16(8) == 0x1_0000_0000 by { Powers(); }
      HexRoundTrip(c as int, width);
    }
  }

  lemma Powers()
    ensures Power16(2) == 0x100 && Power16(4) == 0x10000 && Power16(8) == 0x1_0000_0000
  {
    assert Power16(1) == 16 && Power16(2) == 16 * Power16(1);
    assert Power16(3) == 16 * Power16(2) && Power16(4) == 16 * Power16(3);
    assert Power16(5) == 16 * Power16(4) && Power16(6) == 16 * Power16(5);
    assert Power16(7) == 16 * Power16(6) && Power16(8) == 16 * Power16(7);
  }

  // ------------------------------------------------------------------ texts

  function EscapeAll(h: Host, s: string): string {
    if s == "" then "" else Escape(h, s[0]) + EscapeAll(h, s[1..])
  }

  /** strconv.Quote on valid UTF-8. */
  function Quote(h: Host, s: string): string {
    "\"" + EscapeAll(h, s) + "\""
  }

  lemma Cancel(a: string, x: string, b: string, y: string)
    requires a + x == b + y && |a| == |b|
    ensures a == b && x == y
  {
    assert a == (a + x)[..|a|] && b == (b + y)[..|b|];
    assert x == (a + x)[|a|..] && y == (b + y)[|b|..];
  }

  /** Escaped text followed by its closing quotation mark. */
  function Closed(h: Host, a: string, x: string): (r: string)
    ensures r != "" && (a == "" <==> r[0] == '"')
  {
    if a == "" then "\"" + x else Escape(h, a[0]) + Closed(h, a[1..], x)
  }

  lemma {:induction false} ClosedIs(h: Host, a: string, x: string)
    ensures Closed(h, a, x) == EscapeAll(h, a) + "\"" + x
  {
    if a != "" {
      ClosedIs(h, a[1..], x);
    }
  }

  /** Two escaped texts, each closed by a quotation mark, that agree as far as they go. */
  lemma {:induction false} ClosedAgree(h: Host, a: string, b: string, x: string, y: string)
    requires Closed(h, a, x) == Closed(h, b, y)
    ensures a == b && x == y
  {
    hide Escape, Unescape;
    if a == "" {
      Cancel("\"", x, "\"", y);
    } else {
      var e, f := Escape(h, a[0]), Escape(h, b[0]);
      EscapeRoundTrip(h, a[0], Closed(h, a[1..], x));
      EscapeRoundTrip(h, b[0], Closed(h, b[1..], y));
      assert a[0] == b[0];
      Cancel(e, Closed(h, a[1..], x), f, Closed(h, b[1..], y));
      ClosedAgree(h, a[1..], b[1..], x, y);
      assert a == [a[0]] + a[1..] && b == [b[0]] + b[1..];
    }
  }

  lemma QuotedAgree(h: Host, a: string, b: string, x: string, y: string)
    requires Quote(h, a) + x == Quote(h, b) + y
    ensures a == b && x == y
  {
    hide EscapeAll, Closed;
    ClosedIs(h, a, x);
    ClosedIs(h, b, y);
    assert Quote(h, a) + x == "\"" + Closed(h, a, x);
    assert Quote(h, b) + y == "\"" + Closed(h, b, y);
    Cancel("\"", Closed(h, a, x), "\"", Closed(h, b, y));
    ClosedAgree(h, a, b, x, y);
  }

  // ------------------------------------------------------------- coordinates

  function Assignment(h: Host, key: string, value: string): string {
    Quote(h, key) + "=" + Quote(h, value) + ";"
  }

  /** The coordinates written in the order of keys. */
  function Written(h: Host, values: map<string, string>, keys: seq<string>): string
    requires forall k :: k in keys ==> k in values
  {
    if keys == [] then "" else Assignment(h, keys[0], values[keys[0]]) + Written(h, values, keys[1..])
  }

  ghost function Canonical(h: Host, values: map<string, string>): string {
    KeysAre(values);
    Written(h, values, SortSet(values.Keys))
  }

  lemma KeysAre(values: map<string, string>)
    ensures forall k :: k in SortSet(values.Keys) <==> k in values
  {
    var keys := SortSet(values.Keys);
    assert forall k :: k in keys <==> k in Elements(keys);
  }

  /** sortedCoordinateKeys. */
  method SortedCoordinateKeys(values: map<string, string>) returns (keys: seq<string>)
    ensures keys == SortSet(values.Keys)
  {
    hide InsertUnique;
    keys := [];
    var remaining := values.Keys;
    while remaining != {}
      invariant remaining <= values.Keys && Ascending(keys) && Elements(keys) == values.Keys - remaining
      decreases |remaining|
    {
      var k :| k in remaining;
      assert values.Keys - (remaining - {k}) == (values.Keys - remaining) + {k};
      keys, remaining := InsertUnique(keys, k), remaining - {k};
    }
    AscendingUnique(keys, SortSet(values.Keys));
  }

  /** canonicalCoordinates. */
  lemma WrittenNext(h: Host, values: map<string, string>, keys: seq<string>, i: nat)
    requires i < |keys| && forall k :: k in keys ==> k in values
    ensures Written(h, values, keys[i..]) ==
            (Quote(h, keys[i]) + "=" + Quote(h, values[keys[i]]) + ";") + Written(h, values, keys[i + 1..])
  {
    hide Quote;
    assert keys[i..][0] == keys[i] && keys[i..][1..] == keys[i + 1..];
  }

  lemma NothingWritten(h: Host, values: map<string, string>, keys: seq<string>)
    ensures Written(h, values, keys[|keys|..]) == "" && keys[0..] == keys
  {
  }

  method CanonicalCoordinates(h: Host, values: map<string, string>) returns (output: string)
    ensures output == Canonical(h, values)
  {
    hide Quote, SortSet, Written, Ascending, Elements;
    var keys := SortedCoordinateKeys(values);
    KeysAre(values);
    NothingWritten(h, values, keys);
    output := "";
    for i := 0 to |keys|
      invariant forall k :: k in keys ==> k in values
      invariant output + Written(h, values, keys[i..]) == Written(h, values, keys)
    {
      WrittenNext(h, values, keys, i);
      output := output + (Quote(h, keys[i]) + "=" + Quote(h, values[keys[i]]) + ";");
    }
  }

  lemma AssignmentsAgree(h: Host, k: string, l: string, v: string, u: string, x: string, y: string)
    requires Assignment(h, k, v) + x == Assignment(h, l, u) + y
    ensures k == l && v == u && x == y
  {
    hide Quote;
    var va, vb := Quote(h, v) + (";" + x), Quote(h, u) + (";" + y);
    assert Assignment(h, k, v) + x == Quote(h, k) + ("=" + va);
    assert Assignment(h, l, u) + y == Quote(h, l) + ("=" + vb);
    QuotedAgree(h, k, l, "=" + va, "=" + vb);
    Cancel("=", va, "=", vb);
    QuotedAgree(h, v, u, ";" + x, ";" + y);
    Cancel(";", x, ";", y);
  }

  lemma {:induction false} WrittenAgree(h: Host, a: map<string, string>, b: map<string, string>, ka: seq<string>,
      kb: seq<string>)
    requires (forall k :: k in ka ==> k in a) && (forall k :: k in kb ==> k in b)
    requires Written(h, a, ka) == Written(h, b, kb)
    ensures ka == kb && forall k :: k in ka ==> a[k] == b[k]
  {
    hide Assignment;
    if ka != [] && kb != [] {
      AssignmentsAgree(h, ka[0], kb[0], a[ka[0]], b[kb[0]], Written(h, a, ka[1..]), Written(h, b, kb[1..]));
      WrittenAgree(h, a, b, ka[1..], kb[1..]);
      assert ka == [ka[0]] + ka[1..] && kb == [kb[0]] + kb[1..];
    } else {
      assert Written(h, a, ka) != "" <==> ka != [] by { Unwritten(h, a, ka); }
      assert Written(h, b, kb) != "" <==> kb != [] by { Unwritten(h, b, kb); }
    }
  }

  lemma Unwritten(h: Host, a: map<string, string>, keys: seq<string>)
    requires forall k :: k in keys ==> k in a
    ensures Written(h, a, keys) != "" <==> keys != []
  {
  }

  /** No two sets of coordinates share a canonical form. */
  lemma CanonicalInjective(h: Host, a: map<string, string>, b: map<string, string>)
    ensures Canonical(h, a) == Canonical(h, b) <==> a == b
  {
    if Canonical(h, a) == Canonical(h, b) {
      KeysAre(a);
      KeysAre(b);
      WrittenAgree(h, a, b, SortSet(a.Keys), SortSet(b.Keys));
      assert a.Keys == b.Keys;
    }
  }
}
