/** The canonical form of an event, whose hash is the event id: a JSON array of the header,
    the tags and the content. */
module EventSerialization {
  import opened Bytes
  import opened Wrappers

  datatype Event = Event(pubkey: seq<byte>, createdAt: int, kind: int, tags: seq<seq<seq<byte>>>, content: seq<byte>)

  // The punctuation: 0x22 is the quotation mark, 0x5C the backslash, 0x2C the comma, 0x2D the
  // minus, 0x5B and 0x5D the brackets, 0x30 to 0x39 the digits.

  // ----- strings -----

  function Hex(d: int): (c: byte)
    requires 0 <= d < 16
    ensures c != 0x22 && c != 0x5C
  {
    if d < 10 then 0x30 + d else 0x61 + d - 10
  }

  /** The escape of one octet: section 7 of RFC 8259, with the short forms where there is one. */
  function EscapeChar(c: byte): (e: seq<byte>)
    ensures e != []
  {
    if c == 0x22 || c == 0x5C then [0x5C, c]
    else if c >= 0x20 then [c]
    else if c == 0x08 then [0x5C, 0x62]
    else if c == 0x09 then [0x5C, 0x74]
    else if c == 0x0A then [0x5C, 0x6E]
    else if c == 0x0C then [0x5C, 0x66]
    else if c == 0x0D then [0x5C, 0x72]
    else [0x5C, 0x75, 0x30, 0x30, Hex(c / 16), Hex(c % 16)]
  }

  /** A text as octets. */
  function Octets(text: string): (b: seq<byte>)
    ensures |b| == |text|
  {
    seq(|text|, i requires 0 <= i < |text| => (text[i] as int) % 0x100)
  }

  lemma OctetsIs(text: string)
    ensures |text| == 2 ==> Octets(text) == [(text[0] as int) % 0x100, (text[1] as int) % 0x100]
  {
  }

  lemma PrefixIs()
    ensures Octets("\\u00") == [0x5C, 0x75, 0x30, 0x30]
  {
  }

  lemma ShortEscapes()
    ensures Octets("\\\"") == [0x5C, 0x22] && Octets("\\\\") == [0x5C, 0x5C]
    ensures Octets("\\b") == [0x5C, 0x62] && Octets("\\t") == [0x5C, 0x74] && Octets("\\n") == [0x5C, 0x6E]
    ensures Octets("\\f") == [0x5C, 0x66] && Octets("\\r") == [0x5C, 0x72]
  {
    OctetsIs("\\\"");
    OctetsIs("\\\\");
    OctetsIs("\\b");
    OctetsIs("\\t");
    OctetsIs("\\n");
    OctetsIs("\\f");
    OctetsIs("\\r");
    hide Octets;
  }

  /** The escapes as section 7 of RFC 8259 writes them, hexadecimal digits in lower case. */
  lemma EscapeTable(c: byte)
    ensures EscapeChar(0x22) == Octets("\\\"") && EscapeChar(0x5C) == Octets("\\\\")
    ensures EscapeChar(0x08) == Octets("\\b") && EscapeChar(0x09) == Octets("\\t") && EscapeChar(0x0A) == Octets("\\n")
    ensures EscapeChar(0x0C) == Octets("\\f") && EscapeChar(0x0D) == Octets("\\r")
    ensures c < 0x20 && c != 0x08 && c != 0x09 && c != 0x0A && c != 0x0C && c != 0x0D ==>
      EscapeChar(c) == Octets("\\u00") + Octets([HEX_DIGITS[c / 16], HEX_DIGITS[c % 16]])
    ensures c >= 0x20 && c != 0x22 && c != 0x5C ==> EscapeChar(c) == [c]
  {
    ShortEscapes();
    if c < 0x20 {
      PrefixIs();
      HexIs(c / 16);
      HexIs(c % 16);
      OctetsIs([HEX_DIGITS[c / 16], HEX_DIGITS[c % 16]]);
    }
    hide Octets, Hex, HEX_DIGITS;
  }

  const HEX_DIGITS: string := "0123456789abcdef"

  lemma HexIs(d: int)
    requires 0 <= d < 16
    ensures (HEX_DIGITS[d] as int) == Hex(d)
  {
  }

  function Escaped(s: seq<byte>): seq<byte> {
    if s == [] then [] else EscapeChar(s[0]) + Escaped(s[1..])
  }

  function Quoted(s: seq<byte>): seq<byte> {
    [0x22] + Escaped(s) + [0x22]
  }

  lemma FirstAndRest(s: seq<byte>, t: seq<byte>)
    requires s != []
    ensures (s + t)[0] == s[0] && (s + t)[1..] == s[1..] + t
  {
  }

  lemma Associative(a: seq<byte>, b: seq<byte>, c: seq<byte>)
    ensures a + (b + c) == (a + b) + c
  {
  }

  lemma {:induction false} EscapedAppend(s: seq<byte>, t: seq<byte>)
    ensures Escaped(s + t) == Escaped(s) + Escaped(t)
  {
    if s == [] {
      assert s + t == t;
    } else {
      hide *;
      EscapedAppend(s[1..], t);
      EscapedCons(s);
      EscapedCons(s + t);
      FirstAndRest(s, t);
      Associative(EscapeChar(s[0]), Escaped(s[1..]), Escaped(t));
    }
  }

  lemma EscapedNext(s: seq<byte>, i: nat)
    requires i < |s|
    ensures Escaped(s[..i + 1]) == Escaped(s[..i]) + EscapeChar(s[i])
  {
    assert s[..i + 1] == s[..i] + [s[i]];
    EscapedAppend(s[..i], [s[i]]);
    assert [s[i]][1..] == [];
    assert Escaped([s[i]]) == EscapeChar(s[i]);
  }

  /** Appends s in quotation marks, escaped. */
  method EscapeString(dst: seq<byte>, s: seq<byte>) returns (out: seq<byte>)
    ensures out == dst + Quoted(s)
  {
    hide Escaped;
    out := dst + [0x22];
    EscapedNone(s);
    var i := 0;
    while i < |s|
      invariant 0 <= i <= |s|
      invariant out == dst + [0x22] + Escaped(s[..i])
    {
      EscapedNext(s, i);
      ghost var before := Escaped(s[..i]);
      var c := s[i];
      var e := AppendEscape([], c);
      out := out + e;
      assert dst + [0x22] + before + e == dst + [0x22] + (before + e);
      i := i + 1;
    }
    assert s[..i] == s;
    out := out + [0x22];
    assert dst + [0x22] + Escaped(s) + [0x22] == dst + Quoted(s);
  }

  lemma EscapedNone(s: seq<byte>)
    ensures Escaped(s[..0]) == []
  {
  }

  /** The cases of the escaper, in its order and with its arithmetic on octets. */
  method AppendEscape(dst: seq<byte>, c: byte) returns (out: seq<byte>)
    ensures out == dst + EscapeChar(c)
  {
    if c == 0x22 {
      out := dst + [0x5C, 0x22];
    } else if c == 0x5C {
      out := dst + [0x5C, 0x5C];
    } else if c >= 0x20 {
      out := dst + [c];
    } else if c == 0x08 {
      out := dst + [0x5C, 0x62];
    } else if c < 0x09 {
      out := dst + [0x5C, 0x75, 0x30, 0x30, 0x30, 0x30 + c];
    } else if c == 0x09 {
      out := dst + [0x5C, 0x74];
    } else if c == 0x0A {
      out := dst + [0x5C, 0x6E];
    } else if c == 0x0C {
      out := dst + [0x5C, 0x66];
    } else if c == 0x0D {
      out := dst + [0x5C, 0x72];
    } else if c < 0x10 {
      out := dst + [0x5C, 0x75, 0x30, 0x30, 0x30, 0x57 + c];
    } else if c < 0x1A {
      out := dst + [0x5C, 0x75, 0x30, 0x30, 0x31, 0x20 + c];
    } else {
      out := dst + [0x5C, 0x75, 0x30, 0x30, 0x31, 0x47 + c];
    }
  }

  // ----- numbers -----

  /** Decimal digits of n, most significant first. */
  function Digits(n: nat): (d: seq<byte>)
    ensures d != [] && forall i :: 0 <= i < |d| ==> 0x30 <= d[i] <= 0x39
  {
    if n < 10 then [0x30 + n] else Digits(n / 10) + [0x30 + n % 10]
  }

  function Decimal(n: int): (d: seq<byte>)
    ensures d != []
  {
    if n < 0 then [0x2D] + Digits(0 - n) else Digits(n)
  }

  /** Neither quotation marks nor backslashes nor commas, and a first octet that is a digit or a minus. */
  lemma DecimalShape(n: int)
    ensures var d := Decimal(n);
      && (0x30 <= d[0] <= 0x39 || d[0] == 0x2D)
      && (forall i :: 0 <= i < |d| ==> d[i] != 0x22 && d[i] != 0x5C && d[i] != 0x2C)
  {
  }

  // ----- the whole form -----

  /** The pieces separated by commas. */
  function Joined(pieces: seq<seq<byte>>): seq<byte> {
    if pieces == [] then [] else pieces[0] + Tail(pieces[1..])
  }

  function Tail(pieces: seq<seq<byte>>): seq<byte> {
    if pieces == [] then [] else [0x2C] + pieces[0] + Tail(pieces[1..])
  }

  lemma {:induction false} TailSnoc(pieces: seq<seq<byte>>, p: seq<byte>)
    ensures Tail(pieces + [p]) == Tail(pieces) + [0x2C] + p
  {
    if pieces == [] {
      assert pieces + [p] == [p];
      assert [p][1..] == [];
      assert Tail([p]) == [0x2C] + p + Tail([]);
    } else {
      TailSnoc(pieces[1..], p);
      assert (pieces + [p])[1..] == pieces[1..] + [p];
      var head := [0x2C] + pieces[0];
      assert head + (Tail(pieces[1..]) + [0x2C] + p) == head + Tail(pieces[1..]) + [0x2C] + p;
    }
  }

  lemma JoinedNext(pieces: seq<seq<byte>>, i: nat)
    requires i < |pieces|
    ensures Joined(pieces[..i + 1]) == Joined(pieces[..i]) + (if i > 0 then [0x2C] else []) + pieces[i]
  {
    if i == 0 {
      assert pieces[..1] == [pieces[0]];
      var empty: seq<seq<byte>> := [];
      assert [pieces[0]][1..] == empty;
      assert Joined([pieces[0]]) == pieces[0] + Tail(empty);
    } else {
      var rest := pieces[1..i];
      assert pieces[..i + 1][1..] == rest + [pieces[i]];
      assert pieces[..i][1..] == rest;
      TailSnoc(rest, pieces[i]);
      assert pieces[0] + (Tail(rest) + [0x2C] + pieces[i]) == pieces[0] + Tail(rest) + [0x2C] + pieces[i];
    }
  }

  lemma TailNext(pieces: seq<seq<byte>>)
    requires pieces != []
    ensures Tail(pieces) == [0x2C] + pieces[0] + Tail(pieces[1..])
    ensures Joined(pieces) == pieces[0] + Tail(pieces[1..])
  {
  }

  function StringPieces(tag: seq<seq<byte>>): (p: seq<seq<byte>>)
    ensures |p| == |tag|
  {
    seq(|tag|, i requires 0 <= i < |tag| => Quoted(tag[i]))
  }

  function TagText(tag: seq<seq<byte>>): seq<byte> {
    [0x5B] + Joined(StringPieces(tag)) + [0x5D]
  }

  function TagPieces(tags: seq<seq<seq<byte>>>): (p: seq<seq<byte>>)
    ensures |p| == |tags|
  {
    seq(|tags|, i requires 0 <= i < |tags| => TagText(tags[i]))
  }

  /** Everything from the quotation mark that ends the public key. */
  function AfterKey(e: Event): seq<byte> {
    [0x22] + Fields(e)
  }

  function Fields(e: Event): seq<byte> {
    [0x2C] + Decimal(e.createdAt) + [0x2C] + Decimal(e.kind) + [0x2C, 0x5B] + Joined(TagPieces(e.tags)) + [0x5D, 0x2C]
        + Quoted(e.content) + [0x5D]
  }

  function Serialized(e: Event): seq<byte> {
    [0x5B, 0x30, 0x2C, 0x22] + e.pubkey + AfterKey(e)
  }

  method SerializeTag(dst: seq<byte>, tag: seq<seq<byte>>) returns (out: seq<byte>)
    ensures out == dst + TagText(tag)
  {
    hide Joined, Quoted;
    ghost var pieces := StringPieces(tag);
    out := dst + [0x5B];
    JoinedNone(pieces);
    for i := 0 to |tag|
      invariant out == dst + [0x5B] + Joined(pieces[..i])
    {
      JoinedNext(pieces, i);
      ghost var before := Joined(pieces[..i]);
      if i > 0 {
        out := out + [0x2C];
      }
      out := EscapeString(out, tag[i]);
      assert out == dst + [0x5B] + (before + (if i > 0 then [0x2C] else []) + pieces[i]);
    }
    assert pieces[..|tag|] == pieces;
    out := out + [0x5D];
    assert out == dst + TagText(tag);
  }

  lemma JoinedNone(pieces: seq<seq<byte>>)
    ensures Joined(pieces[..0]) == []
  {
  }

  /** Appends the canonical form of an event. */
  method SerializeEventInto(evt: Event, dst: seq<byte>) returns (out: seq<byte>)
    ensures out == dst + Serialized(evt)
  {
    hide Joined, Quoted, Decimal, TagText;
    out := dst + [0x5B, 0x30, 0x2C, 0x22];
    out := out + evt.pubkey;
    out := out + [0x22, 0x2C];
    out := out + Decimal(evt.createdAt);
    out := out + [0x2C];
    out := out + Decimal(evt.kind);
    out := out + [0x2C];
    out := out + [0x5B];
    ghost var head := out;
    ghost var pieces := TagPieces(evt.tags);
    JoinedNone(pieces);
    for i := 0 to |evt.tags|
      invariant out == head + Joined(pieces[..i])
    {
      JoinedNext(pieces, i);
      ghost var before := Joined(pieces[..i]);
      if i > 0 {
        out := out + [0x2C];
      }
      out := SerializeTag(out, evt.tags[i]);
      assert out == head + (before + (if i > 0 then [0x2C] else []) + pieces[i]);
    }
    assert pieces[..|evt.tags|] == pieces;
    out := out + [0x5D, 0x2C];
    out := EscapeString(out, evt.content);
    out := out + [0x5D];
    WholeForm(evt, dst, out, Joined(pieces), Decimal(evt.createdAt), Decimal(evt.kind), Quoted(evt.content));
  }

  lemma WholeForm(e: Event, dst: seq<byte>, out: seq<byte>, tags: seq<byte>, at: seq<byte>, kind: seq<byte>,
        content: seq<byte>)
    requires tags == Joined(TagPieces(e.tags)) && at == Decimal(e.createdAt) && kind == Decimal(e.kind)
      && content == Quoted(e.content)
    requires out == dst + [0x5B, 0x30, 0x2C, 0x22] + e.pubkey + [0x22, 0x2C] + at + [0x2C] + kind + [0x2C] + [0x5B]
      + tags + [0x5D, 0x2C] + content + [0x5D]
    ensures out == dst + Serialized(e)
  {
    hide Joined, Quoted, Decimal, TagPieces;
    assert Fields(e) == [0x2C] + at + [0x2C] + kind + [0x2C, 0x5B] + tags + [0x5D, 0x2C] + content + [0x5D];
    assert dst + Serialized(e) == dst + [0x5B, 0x30, 0x2C, 0x22] + e.pubkey + [0x22] + Fields(e);
    assert out == dst + [0x5B, 0x30, 0x2C, 0x22] + e.pubkey + [0x22] + Fields(e);
  }

  // ----- an example -----

  lemma OctetsJoin(s: string, t: string)
    ensures Octets(s + t) == Octets(s) + Octets(t)
  {
  }

  lemma DecimalExamples()
    ensures Decimal(1690) == Octets("1690") && Decimal(-25) == Octets("-25")
  {
    assert Digits(1690) == Digits(169) + [0x30] && Digits(169) == Digits(16) + [0x39]
        && Digits(16) == Digits(1) + [0x36];
    assert Digits(25) == Digits(2) + [0x35];
    assert Octets("1690") == [0x31, 0x36, 0x39, 0x30] && Octets("-25") == [0x2D, 0x32, 0x35];
  }

  lemma QuotedExamples()
    ensures Quoted(Octets("e")) == Octets("\"e\"") && Quoted(Octets("x")) == Octets("\"x\"")
    ensures Quoted(Octets("a\nb")) == Octets("\"a\\nb\"")
  {
    assert Octets("e") == [0x65] && Octets("x") == [0x78] && Octets("a\nb") == [0x61, 0x0A, 0x62];
    hide Octets;
    EscapedCons([0x65]);
    EscapedCons([0x78]);
    EscapedCons([0x62]);
    EscapedCons([0x0A, 0x62]);
    EscapedCons([0x61, 0x0A, 0x62]);
  }

  lemma JoinedExamples(a: seq<byte>, b: seq<byte>, c: seq<byte>)
    ensures Joined([]) == [] && Joined([a]) == a && Joined([a, b]) == a + [0x2C] + b
    ensures Joined([a, b, c]) == a + [0x2C] + b + [0x2C] + c
  {
    TailExamples(b, c);
    assert [a][1..] == [] && [a, b][1..] == [b] && [a, b, c][1..] == [b, c];
    hide Tail;
    assert a + ([0x2C] + b + ([0x2C] + c)) == a + [0x2C] + b + [0x2C] + c;
  }

  lemma TailExamples(b: seq<byte>, c: seq<byte>)
    ensures Tail([]) == [] && Tail([b]) == [0x2C] + b && Tail([b, c]) == [0x2C] + b + ([0x2C] + c)
  {
    TailNext([b]);
    TailNext([c]);
    TailNext([b, c]);
    assert [b][1..] == [] && [c][1..] == [] && [b, c][1..] == [c];
  }

  lemma TagExamples()
    ensures TagText([]) == Octets("[]")
    ensures TagText([Octets("e")]) == Octets("[\"e\"]")
    ensures TagText([Octets("e"), Octets("x")]) == Octets("[\"e\",\"x\"]")
  {
    QuotedExamples();
    Brackets();
    var e, x := Octets("e"), Octets("x");
    assert StringPieces([]) == [] && StringPieces([e]) == [Quoted(e)] && StringPieces([e, x]) == [Quoted(e), Quoted(x)];
    hide Octets, StringPieces;
    JoinedExamples(Quoted(e), Quoted(x), []);
    hide Quoted, Joined;
    OctetsJoin("[", "]");
    OctetsJoin("[", "\"e\"");
    OctetsJoin("[\"e\"", "]");
    OctetsJoin("[\"e\"", ",");
    OctetsJoin("[\"e\",", "\"x\"");
    OctetsJoin("[\"e\",\"x\"", "]");
  }

  lemma Brackets()
    ensures Octets("[") == [0x5B] && Octets("]") == [0x5D] && Octets(",") == [0x2C]
  {
  }

  lemma TagsExample()
    ensures var e, x := Octets("e"), Octets("x");
      Joined(TagPieces([[e, x], [], [e]])) == Octets("[\"e\",\"x\"],") + Octets("[],") + Octets("[\"e\"]")
  {
    TagExamples();
    var a, b, c := [Octets("e"), Octets("x")], [], [Octets("e")];
    assert TagPieces([a, b, c]) == [TagText(a), TagText(b), TagText(c)];
    JoinedExamples(TagText(a), TagText(b), TagText(c));
    assert Octets(",") == [0x2C];
    hide Octets, Joined, TagText, TagPieces;
    OctetsJoin("[\"e\",\"x\"]", ",");
    OctetsJoin("[]", ",");
  }

  /** An event with a positive and a negative number, three tags, one of them empty, and a line break. */
  lemma KnownForm()
    ensures var e, x := Octets("e"), Octets("x");
      Serialized(Event(Octets("ab"), 1690, -25, [[e, x], [], [e]], Octets("a\nb")))
        == Octets("[0,\"ab\",1690,-25,[") + (Octets("[\"e\",\"x\"],") + Octets("[],") + Octets("[\"e\"]"))
          + Octets("],\"a\\nb\"]")
  {
    var e := Event(Octets("ab"), 1690, -25, [[Octets("e"), Octets("x")], [], [Octets("e")]], Octets("a\nb"));
    var tags := Joined(TagPieces(e.tags));
    TagsExample();
    DecimalExamples();
    QuotedExamples();
    hide Quoted, Joined, Decimal, TagPieces, Octets;
    FormPieces(e, Octets("1690"), Octets("-25"), tags, Octets("\"a\\nb\""));
    hide Serialized, Fields, AfterKey;
    HeadExample();
    EndExample();
  }

  lemma FormPieces(e: Event, at: seq<byte>, kind: seq<byte>, tags: seq<byte>, content: seq<byte>)
    requires at == Decimal(e.createdAt) && kind == Decimal(e.kind)
    requires tags == Joined(TagPieces(e.tags)) && content == Quoted(e.content)
    ensures Serialized(e)
      == ([0x5B, 0x30, 0x2C, 0x22] + e.pubkey + [0x22, 0x2C] + at + [0x2C] + kind + [0x2C, 0x5B]) + tags
        + ([0x5D, 0x2C] + content + [0x5D])
  {
    hide Quoted, Joined, Decimal, TagPieces;
    var b := Fields(e);
    assert b == [0x2C] + at + [0x2C] + kind + [0x2C, 0x5B] + tags + [0x5D, 0x2C] + content + [0x5D];
    hide Fields;
    assert Serialized(e) == [0x5B, 0x30, 0x2C, 0x22] + e.pubkey + ([0x22] + b);
  }

  lemma HeadExample()
    ensures [0x5B, 0x30, 0x2C, 0x22] + Octets("ab") + [0x22, 0x2C] + Octets("1690") + [0x2C] + Octets("-25")
      + [0x2C, 0x5B]
      == Octets("[0,\"ab\",1690,-25,[")
  {
  }

  lemma EndExample()
    ensures [0x5D, 0x2C] + Octets("\"a\\nb\"") + [0x5D] == Octets("],\"a\\nb\"]")
  {
  }

  // ----- reading it back -----
  // ----- reading it back -----

  function HexValue(c: byte): int {
    if 0x30 <= c <= 0x39 then c - 0x30 else if 0x61 <= c <= 0x66 then c - 0x61 + 10 else -1
  }

  /** One octet of a quoted string and what follows it. */
  function ReadChar(b: seq<byte>): (r: Option<(byte, seq<byte>)>)
    ensures r.Some? ==> |r.value.1| < |b|
  {
    if b == [] || b[0] == 0x22 || b[0] < 0x20 then None
    else if b[0] != 0x5C then Some((b[0], b[1..]))
    else if |b| < 2 then None
    else if b[1] == 0x22 || b[1] == 0x5C then Some((b[1], b[2..]))
    else if b[1] == 0x62 then Some((0x08, b[2..]))
    else if b[1] == 0x74 then Some((0x09, b[2..]))
    else if b[1] == 0x6E then Some((0x0A, b[2..]))
    else if b[1] == 0x66 then Some((0x0C, b[2..]))
    else if b[1] == 0x72 then Some((0x0D, b[2..]))
    else if b[1] == 0x75 && |b| >= 6 && b[2] == 0x30 && b[3] == 0x30 && HexValue(b[4]) >= 0 && HexValue(b[5]) >= 0
    then Some((16 * HexValue(b[4]) + HexValue(b[5]), b[6..]))
    else None
  }

  /** The rest of a quoted string, up to its closing mark. */
  function ReadChars(b: seq<byte>): (r: Option<(seq<byte>, seq<byte>)>)
    ensures r.Some? ==> |r.value.1| < |b|
    decreases |b|
  {
    if b == [] then None
    else if b[0] == 0x22 then Some(([], b[1..]))
    else
      var c := ReadChar(b);
      if c.None? then None else
        var s := ReadChars(c.value.1);
        if s.None? then None else Some(([c.value.0] + s.value.0, s.value.1))
  }

  function ReadString(b: seq<byte>): (r: Option<(seq<byte>, seq<byte>)>)
    ensures r.Some? ==> |r.value.1| < |b|
  {
    if b == [] || b[0] != 0x22 then None else ReadChars(b[1..])
  }

  lemma CharBack(c: byte, rest: seq<byte>)
    ensures ReadChar(EscapeChar(c) + rest) == Some((c, rest))
    ensures EscapeChar(c)[0] != 0x22
  {
    var e := EscapeChar(c);
    var b := e + rest;
    assert b[|e|..] == rest;
    assert forall i :: 0 <= i < |e| ==> b[i] == e[i];
  }

  /** The escape is the only shortest text that is read as the octet. */
  lemma ShortestEscape(c: byte, e: seq<byte>, rest: seq<byte>)
    requires ReadChar(e + rest) == Some((c, rest))
    ensures |EscapeChar(c)| <= |e|
    ensures |EscapeChar(c)| == |e| ==> e == EscapeChar(c)
  {
    var b := e + rest;
    assert b[|e|..] == rest;
    assert forall i :: 0 <= i < |e| ==> b[i] == e[i];
  }

  lemma FourPieces(a: seq<byte>, b: seq<byte>, c: seq<byte>, d: seq<byte>)
    requires a != []
    ensures (a + b) + c + d == a + (b + c + d) && (a + (b + c + d))[0] == a[0]
  {
  }

  lemma ReadCharsNext(b: seq<byte>, c: byte, next: seq<byte>, t: seq<byte>, rest: seq<byte>)
    requires b != [] && b[0] != 0x22 && ReadChar(b) == Some((c, next)) && ReadChars(next) == Some((t, rest))
    ensures ReadChars(b) == Some(([c] + t, rest))
  {
    hide ReadChar;
  }

  lemma {:induction false} CharsBack(s: seq<byte>, rest: seq<byte>)
    ensures ReadChars(Escaped(s) + [0x22] + rest) == Some((s, rest))
  {
    if s == [] {
      assert Escaped(s) + [0x22] + rest == [0x22] + rest;
      assert ([0x22] + rest)[1..] == rest;
    } else {
      hide *;
      var e, next := EscapeChar(s[0]), Escaped(s[1..]) + [0x22] + rest;
      CharBack(s[0], next);
      CharsBack(s[1..], rest);
      EscapedCons(s);
      FourPieces(e, Escaped(s[1..]), [0x22], rest);
      ReadCharsNext(e + next, s[0], next, s[1..], rest);
      assert s == [s[0]] + s[1..];
    }
  }

  lemma EscapedCons(s: seq<byte>)
    requires s != []
    ensures Escaped(s) == EscapeChar(s[0]) + Escaped(s[1..])
  {
  }

  /** Unescaping undoes escaping, whatever comes behind. */
  lemma StringBack(s: seq<byte>, rest: seq<byte>)
    ensures ReadString(Quoted(s) + rest) == Some((s, rest))
  {
    CharsBack(s, rest);
    hide Escaped, ReadChars;
    assert (Quoted(s) + rest)[1..] == Escaped(s) + [0x22] + rest;
  }

  function DigitsValue(d: seq<byte>): int {
    if d == [] then 0 else 10 * DigitsValue(d[..|d| - 1]) + ((d[|d| - 1] as int) - 0x30)
  }

  lemma {:induction false} DigitsBack(n: nat)
    ensures DigitsValue(Digits(n)) == n
  {
    if n < 10 {
      assert Digits(n)[..0] == [];
    } else {
      DigitsBack(n / 10);
      assert Digits(n)[..|Digits(n)| - 1] == Digits(n / 10);
    }
  }

  /** Digits without a leading zero. */
  lemma {:induction false} NoLeadingZero(n: nat)
    ensures n > 0 ==> Digits(n)[0] != 0x30
    ensures |Digits(n)| > 1 ==> Digits(n)[0] != 0x30
  {
    if n >= 10 {
      NoLeadingZero(n / 10);
    }
  }

  function DecimalValue(d: seq<byte>): int {
    if d != [] && d[0] == 0x2D then 0 - DigitsValue(d[1..]) else DigitsValue(d)
  }

  lemma DecimalBack(n: int)
    ensures DecimalValue(Decimal(n)) == n
  {
    DigitsBack(if n < 0 then 0 - n else n);
    if n < 0 {
      assert Decimal(n)[1..] == Digits(0 - n);
    } else {
      assert Digits(n)[0] != 0x2D;
    }
  }

  /** The octets before the first stop, and those behind it. */
  function ReadUntil(b: seq<byte>, stop: byte): (r: Option<(seq<byte>, seq<byte>)>)
    ensures r.Some? ==> |r.value.1| < |b|
  {
    if b == [] then None
    else if b[0] == stop then Some(([], b[1..]))
    else
      var r := ReadUntil(b[1..], stop);
      if r.None? then None else Some(([b[0]] + r.value.0, r.value.1))
  }

  lemma {:induction false} UntilBack(p: seq<byte>, stop: byte, rest: seq<byte>)
    requires forall i :: 0 <= i < |p| ==> p[i] != stop
    ensures ReadUntil(p + [stop] + rest, stop) == Some((p, rest))
  {
    var b := p + [stop] + rest;
    if p == [] {
      assert b == [stop] + rest;
      assert b[1..] == rest;
    } else {
      UntilBack(p[1..], stop, rest);
      assert b[1..] == p[1..] + [stop] + rest;
      assert b[0] == p[0];
      assert p == [p[0]] + p[1..];
    }
  }

  /** A number and the comma behind it. */
  function ReadNumber(b: seq<byte>): (r: Option<(int, seq<byte>)>)
    ensures r.Some? ==> |r.value.1| < |b|
  {
    var d := ReadUntil(b, 0x2C);
    if d.None? then None else Some((DecimalValue(d.value.0), d.value.1))
  }

  lemma NumberBack(n: int, rest: seq<byte>)
    ensures ReadNumber(Decimal(n) + [0x2C] + rest) == Some((n, rest))
  {
    DecimalShape(n);
    DecimalBack(n);
    hide Decimal;
    UntilBack(Decimal(n), 0x2C, rest);
  }

  /** The strings behind the first one of a tag, up to its closing bracket. */
  function ReadStringTail(b: seq<byte>): (r: Option<(seq<seq<byte>>, seq<byte>)>)
    ensures r.Some? ==> |r.value.1| < |b|
    decreases |b|
  {
    if b == [] then None
    else if b[0] == 0x5D then Some(([], b[1..]))
    else if b[0] != 0x2C then None
    else
      var s := ReadString(b[1..]);
      if s.None? then None else
        var t := ReadStringTail(s.value.1);
        if t.None? then None else Some(([s.value.0] + t.value.0, t.value.1))
  }

  function ReadTag(b: seq<byte>): (r: Option<(seq<seq<byte>>, seq<byte>)>)
    ensures r.Some? ==> |r.value.1| < |b|
  {
    if |b| < 2 || b[0] != 0x5B then None
    else if b[1] == 0x5D then Some(([], b[2..]))
    else
      var s := ReadString(b[1..]);
      if s.None? then None else
        var t := ReadStringTail(s.value.1);
        if t.None? then None else Some(([s.value.0] + t.value.0, t.value.1))
  }

  lemma PiecesRest(tag: seq<seq<byte>>)
    requires tag != []
    ensures StringPieces(tag)[0] == Quoted(tag[0]) && StringPieces(tag)[1..] == StringPieces(tag[1..])
  {
    hide Quoted;
    var x, y := StringPieces(tag)[1..], StringPieces(tag[1..]);
    assert |x| == |y| && forall i :: 0 <= i < |x| ==> x[i] == y[i];
  }

  lemma ReadStringTailNext(x: seq<byte>, s: seq<byte>, r: seq<byte>, t: seq<seq<byte>>, rest: seq<byte>)
    requires ReadString(x) == Some((s, r)) && ReadStringTail(r) == Some((t, rest))
    ensures ReadStringTail([0x2C] + x) == Some(([s] + t, rest))
  {
    hide ReadString;
    assert ([0x2C] + x)[1..] == x;
  }

  lemma ReadTagNext(x: seq<byte>, s: seq<byte>, r: seq<byte>, t: seq<seq<byte>>, rest: seq<byte>)
    requires x != [] && x[0] == 0x22 && ReadString(x) == Some((s, r)) && ReadStringTail(r) == Some((t, rest))
    ensures ReadTag([0x5B] + x) == Some(([s] + t, rest))
  {
    hide ReadString, ReadStringTail;
    assert ([0x5B] + x)[1..] == x;
  }

  lemma EmptyList(rest: seq<byte>)
    ensures ReadTag([0x5B, 0x5D] + rest) == Some(([], rest)) && ReadTags([0x5B, 0x5D] + rest) == Some(([], rest))
  {
    assert ([0x5B, 0x5D] + rest)[2..] == rest;
  }

  /** Concatenations grouped from the left and around their first piece. */
  lemma Regroup(a: seq<byte>, p: seq<byte>, t: seq<byte>, c: seq<byte>, rest: seq<byte>)
    ensures a + (p + t) + c + rest == a + (p + (t + c + rest))
    ensures (a + p + t) + c + rest == a + (p + (t + c + rest))
  {
  }

  lemma ReadTagTailNext(x: seq<byte>, s: seq<seq<byte>>, r: seq<byte>, t: seq<seq<seq<byte>>>, rest: seq<byte>)
    requires ReadTag(x) == Some((s, r)) && ReadTagTail(r) == Some((t, rest))
    ensures ReadTagTail([0x2C] + x) == Some(([s] + t, rest))
  {
    hide ReadTag;
    assert ([0x2C] + x)[1..] == x;
  }

  lemma ReadTagsNext(x: seq<byte>, s: seq<seq<byte>>, r: seq<byte>, t: seq<seq<seq<byte>>>, rest: seq<byte>)
    requires x != [] && x[0] == 0x5B && ReadTag(x) == Some((s, r)) && ReadTagTail(r) == Some((t, rest))
    ensures ReadTags([0x5B] + x) == Some(([s] + t, rest))
  {
    hide ReadTag, ReadTagTail;
    assert ([0x5B] + x)[1..] == x;
  }

  lemma {:induction false} StringTailBack(tag: seq<seq<byte>>, rest: seq<byte>)
    ensures ReadStringTail(Tail(StringPieces(tag)) + [0x5D] + rest) == Some((tag, rest))
  {
    if tag == [] {
      assert Tail(StringPieces(tag)) + [0x5D] + rest == [0x5D] + rest;
      assert ([0x5D] + rest)[1..] == rest;
    } else {
      hide *;
      PiecesRest(tag);
      TailNext(StringPieces(tag));
      var t := Tail(StringPieces(tag[1..]));
      var next := t + [0x5D] + rest;
      Regroup([0x2C], Quoted(tag[0]), t, [0x5D], rest);
      StringBack(tag[0], next);
      StringTailBack(tag[1..], rest);
      ReadStringTailNext(Quoted(tag[0]) + next, tag[0], next, tag[1..], rest);
      assert tag == [tag[0]] + tag[1..];
    }
  }

  lemma TagBack(tag: seq<seq<byte>>, rest: seq<byte>)
    ensures ReadTag(TagText(tag) + rest) == Some((tag, rest))
  {
    hide *;
    TagTextIs(tag);
    if tag == [] {
      EmptyList(rest);
    } else {
      PiecesRest(tag);
      TailNext(StringPieces(tag));
      var t := Tail(StringPieces(tag[1..]));
      var next := t + [0x5D] + rest;
      Regroup([0x5B], Quoted(tag[0]), t, [0x5D], rest);
      QuotedStarts(tag[0]);
      StringBack(tag[0], next);
      StringTailBack(tag[1..], rest);
      ReadTagNext(Quoted(tag[0]) + next, tag[0], next, tag[1..], rest);
      assert tag == [tag[0]] + tag[1..];
    }
  }

  lemma TagTextIs(tag: seq<seq<byte>>)
    ensures TagText(tag) == [0x5B] + Joined(StringPieces(tag)) + [0x5D]
    ensures tag == [] ==> TagText(tag) == [0x5B, 0x5D]
  {
  }

  lemma QuotedStarts(s: seq<byte>)
    ensures |Quoted(s)| >= 2 && Quoted(s)[0] == 0x22
  {
  }

  function ReadTagTail(b: seq<byte>): (r: Option<(seq<seq<seq<byte>>>, seq<byte>)>)
    ensures r.Some? ==> |r.value.1| < |b|
    decreases |b|
  {
    if b == [] then None
    else if b[0] == 0x5D then Some(([], b[1..]))
    else if b[0] != 0x2C then None
    else
      var s := ReadTag(b[1..]);
      if s.None? then None else
        var t := ReadTagTail(s.value.1);
        if t.None? then None else Some(([s.value.0] + t.value.0, t.value.1))
  }

  function ReadTags(b: seq<byte>): (r: Option<(seq<seq<seq<byte>>>, seq<byte>)>)
    ensures r.Some? ==> |r.value.1| < |b|
  {
    if |b| < 2 || b[0] != 0x5B then None
    else if b[1] == 0x5D then Some(([], b[2..]))
    else
      var s := ReadTag(b[1..]);
      if s.None? then None else
        var t := ReadTagTail(s.value.1);
        if t.None? then None else Some(([s.value.0] + t.value.0, t.value.1))
  }

  lemma TagPiecesRest(tags: seq<seq<seq<byte>>>)
    requires tags != []
    ensures TagPieces(tags)[0] == TagText(tags[0]) && TagPieces(tags)[1..] == TagPieces(tags[1..])
  {
    hide TagText;
    var x, y := TagPieces(tags)[1..], TagPieces(tags[1..]);
    assert |x| == |y| && forall i :: 0 <= i < |x| ==> x[i] == y[i];
  }

  lemma {:induction false} TagTailBack(tags: seq<seq<seq<byte>>>, rest: seq<byte>)
    ensures ReadTagTail(Tail(TagPieces(tags)) + [0x5D] + rest) == Some((tags, rest))
  {
    if tags == [] {
      assert Tail(TagPieces(tags)) + [0x5D] + rest == [0x5D] + rest;
      assert ([0x5D] + rest)[1..] == rest;
    } else {
      hide *;
      TagPiecesRest(tags);
      TailNext(TagPieces(tags));
      var t := Tail(TagPieces(tags[1..]));
      var next := t + [0x5D] + rest;
      Regroup([0x2C], TagText(tags[0]), t, [0x5D], rest);
      TagBack(tags[0], next);
      TagTailBack(tags[1..], rest);
      ReadTagTailNext(TagText(tags[0]) + next, tags[0], next, tags[1..], rest);
      assert tags == [tags[0]] + tags[1..];
    }
  }

  lemma TagStarts(tag: seq<seq<byte>>)
    ensures |TagText(tag)| >= 2 && TagText(tag)[0] == 0x5B
  {
  }

  lemma TagsBack(tags: seq<seq<seq<byte>>>, rest: seq<byte>)
    ensures ReadTags([0x5B] + Joined(TagPieces(tags)) + [0x5D] + rest) == Some((tags, rest))
  {
    if tags == [] {
      assert [0x5B] + Joined(TagPieces(tags)) + [0x5D] + rest == [0x5B, 0x5D] + rest;
      EmptyList(rest);
    } else {
      hide *;
      TagPiecesRest(tags);
      TailNext(TagPieces(tags));
      var t := Tail(TagPieces(tags[1..]));
      var next := t + [0x5D] + rest;
      Regroup([0x5B], TagText(tags[0]), t, [0x5D], rest);
      TagStarts(tags[0]);
      TagBack(tags[0], next);
      TagTailBack(tags[1..], rest);
      ReadTagsNext(TagText(tags[0]) + next, tags[0], next, tags[1..], rest);
      assert tags == [tags[0]] + tags[1..];
    }
  }

  /** The fields behind the public key, with that key filled in. */
  function ReadFields(b: seq<byte>, pubkey: seq<byte>): Option<Event> {
    if b == [] || b[0] != 0x2C then None else
      var at := ReadNumber(b[1..]);
      if at.None? then None else
        var kind := ReadNumber(at.value.1);
        if kind.None? then None else
          var tags := ReadTags(kind.value.1);
          if tags.None? || tags.value.1 == [] || tags.value.1[0] != 0x2C then None else
            var content := ReadString(tags.value.1[1..]);
            if content.None? || content.value.1 != [0x5D] then None else
              Some(Event(pubkey, at.value.0, kind.value.0, tags.value.0, content.value.0))
  }

  lemma FieldsBack(e: Event)
    ensures ReadFields(Fields(e), e.pubkey) == Some(e)
  {
    hide ReadNumber, ReadTags, ReadString, Quoted, Decimal, Joined, TagPieces;
    var b := Fields(e);
    var b4 := Quoted(e.content) + [0x5D];
    var b3 := [0x2C] + b4;
    var b2 := [0x5B] + Joined(TagPieces(e.tags)) + [0x5D] + b3;
    var b1 := Decimal(e.kind) + [0x2C] + b2;
    assert b == [0x2C] + (Decimal(e.createdAt) + [0x2C] + b1);
    assert b[1..] == Decimal(e.createdAt) + [0x2C] + b1;
    NumberBack(e.createdAt, b1);
    NumberBack(e.kind, b2);
    TagsBack(e.tags, b3);
    assert b3[1..] == b4;
    StringBack(e.content, [0x5D]);
  }

  /** Reads a canonical form whose public key holds no quotation mark. */
  function Parse(b: seq<byte>): Option<Event> {
    if |b| < 4 || b[..4] != [0x5B, 0x30, 0x2C, 0x22] then None else
      var key := ReadUntil(b[4..], 0x22);
      if key.None? then None else ReadFields(key.value.1, key.value.0)
  }

  /** Every field comes back, for every key without a quotation mark, hex keys among them. */
  lemma ParseBack(e: Event)
    requires 0x22 !in e.pubkey
    ensures Parse(Serialized(e)) == Some(e)
  {
    hide ReadUntil, ReadFields, Fields;
    var b := Serialized(e);
    assert b[..4] == [0x5B, 0x30, 0x2C, 0x22];
    assert b[4..] == e.pubkey + [0x22] + Fields(e);
    UntilBack(e.pubkey, 0x22, Fields(e));
    FieldsBack(e);
  }

  // ----- injectivity for arbitrary keys -----

  // The key is written without escaping, so a key with quotation marks could pretend to be the
  // start of another event. A reader that tracks quotation shows that it never gets away with
  // it: between the two readings, strings and the space between strings would swap roles.

  datatype State = Outside | Inside | Escape | Closed | Next | Dead

  /** Outside strings only punctuation and digits occur, and no number follows a string. */
  function Step(q: State, c: byte): State {
    match q
    case Inside => if c == 0x22 then Closed else if c == 0x5C then Escape else Inside
    case Escape => Inside
    case Outside => if c == 0x22 then Inside else if c == 0x5C then Dead else Outside
    case Closed => if c == 0x22 then Inside else if c == 0x5C then Dead else if c == 0x2C then Next else Outside
    case Next => if c == 0x22 then Inside else if c == 0x5C || c == 0x2D || 0x30 <= c <= 0x39 then Dead else Outside
    case Dead => Dead
  }

  function Run(q: State, b: seq<byte>): State
    decreases |b|
  {
    if b == [] then q else Run(Step(q, b[0]), b[1..])
  }

  predicate Between(q: State) { q == Outside || q == Closed || q == Next }

  lemma {:induction false} RunAppend(q: State, a: seq<byte>, b: seq<byte>)
    ensures Run(q, a + b) == Run(Run(q, a), b)
    decreases a
  {
    if a == [] {
      assert a + b == b;
    } else {
      RunAppend(Step(q, a[0]), a[1..], b);
      assert (a + b)[1..] == a[1..] + b;
    }
  }

  lemma RunOne(q: State, c: byte)
    ensures Run(q, [c]) == Step(q, c)
  {
    assert [c][1..] == [];
  }

  lemma {:induction false} RunDead(b: seq<byte>)
    ensures Run(Dead, b) == Dead
  {
    if b != [] {
      RunDead(b[1..]);
    }
  }

  /** Text without quotation marks and backslashes stays where it is. */
  lemma {:induction false} RunPlain(q: State, b: seq<byte>)
    requires 0x22 !in b && 0x5C !in b
    ensures q == Inside ==> Run(q, b) == Inside
    ensures q == Outside ==> Run(q, b) == Outside
    decreases b
  {
    if b != [] {
      RunPlain(Step(q, b[0]), b[1..]);
    }
  }

  /** An escaped octet stays inside a string; outside it either passes or is fatal. */
  lemma RunEscapeChar(q: State, c: byte)
    ensures q == Inside ==> Run(q, EscapeChar(c)) == Inside
    ensures Between(q) || q == Dead ==> var r := Run(q, EscapeChar(c)); Between(r) || r == Dead
  {
    var e := EscapeChar(c);
    if e[0] == 0x5C {
      var d := e[1..];
      if q == Inside {
        assert Run(Escape, d) == Run(Inside, d[1..]);
        RunPlain(Inside, d[1..]);
      } else if Between(q) || q == Dead {
        RunDead(d);
      }
    } else {
      RunOne(q, c);
    }
  }

  lemma {:induction false} RunEscaped(q: State, s: seq<byte>)
    ensures q == Inside ==> Run(q, Escaped(s)) == Inside
    ensures Between(q) || q == Dead ==> var r := Run(q, Escaped(s)); Between(r) || r == Dead
    decreases s
  {
    if s != [] {
      RunEscapeChar(q, s[0]);
      RunAppend(q, EscapeChar(s[0]), Escaped(s[1..]));
      RunEscaped(Run(q, EscapeChar(s[0])), s[1..]);
    }
  }

  /** A quoted string read as one, and the same text read the wrong way round. */
  lemma RunQuoted(q: State, s: seq<byte>)
    ensures Between(q) ==> Run(q, Quoted(s)) == Closed
    ensures q == Inside ==> Run(q, Quoted(s)) == Inside || Run(q, Quoted(s)) == Dead
  {
    hide Run, Escaped;
    var e := Escaped(s);
    RunAppend(q, [0x22] + e, [0x22]);
    RunAppend(q, [0x22], e);
    RunOne(q, 0x22);
    RunEscaped(Step(q, 0x22), s);
    RunOne(Run(q, [0x22] + e), 0x22);
  }

  predicate WrongWay(r: State) { r == Inside || r == Dead }

  lemma {:induction false} RunStringTail(q: State, tag: seq<seq<byte>>)
    ensures q == Closed ==> Run(q, Tail(StringPieces(tag))) == Closed
    ensures WrongWay(q) ==> WrongWay(Run(q, Tail(StringPieces(tag))))
    decreases |tag|
  {
    if tag != [] {
      PiecesRest(tag);
      var next := Tail(StringPieces(tag[1..]));
      var q1 := Step(q, 0x2C);
      var q2 := Run(q1, Quoted(tag[0]));
      assert Tail(StringPieces(tag)) == [0x2C] + Quoted(tag[0]) + next;
      hide Run, Quoted, StringPieces, Tail;
      RunAppend(q, [0x2C] + Quoted(tag[0]), next);
      RunAppend(q, [0x2C], Quoted(tag[0]));
      RunOne(q, 0x2C);
      RunQuoted(q1, tag[0]);
      RunDead(Quoted(tag[0]));
      RunStringTail(q2, tag[1..]);
    } else {
      assert Run(q, []) == q;
    }
  }

  lemma RunTag(q: State, tag: seq<seq<byte>>)
    ensures Between(q) ==> Run(q, TagText(tag)) == Outside
    ensures WrongWay(q) ==> WrongWay(Run(q, TagText(tag)))
  {
    var t := Joined(StringPieces(tag));
    var q1 := Step(q, 0x5B);
    if tag == [] {
      assert t == [] && Run(q1, t) == q1;
    } else {
      PiecesRest(tag);
      var next := Tail(StringPieces(tag[1..]));
      assert t == Quoted(tag[0]) + next;
      RunQuoted(q1, tag[0]);
      RunStringTail(Run(q1, Quoted(tag[0])), tag[1..]);
      hide Run, Quoted, StringPieces, Tail;
      RunAppend(q1, Quoted(tag[0]), next);
      RunDead(Quoted(tag[0]));
    }
    hide Run, Joined, StringPieces;
    RunAppend(q, [0x5B] + t, [0x5D]);
    RunAppend(q, [0x5B], t);
    RunOne(q, 0x5B);
    RunOne(Run(q1, t), 0x5D);
  }

  lemma {:induction false} RunTagTail(q: State, tags: seq<seq<seq<byte>>>)
    ensures q == Outside ==> Run(q, Tail(TagPieces(tags))) == Outside
    ensures WrongWay(q) ==> WrongWay(Run(q, Tail(TagPieces(tags))))
    decreases |tags|
  {
    if tags != [] {
      TagPiecesRest(tags);
      var next := Tail(TagPieces(tags[1..]));
      var q1 := Step(q, 0x2C);
      assert Tail(TagPieces(tags)) == [0x2C] + TagText(tags[0]) + next;
      RunTag(q1, tags[0]);
      hide Run, TagText, TagPieces, Tail;
      RunAppend(q, [0x2C] + TagText(tags[0]), next);
      RunAppend(q, [0x2C], TagText(tags[0]));
      RunOne(q, 0x2C);
      RunTagTail(Run(q1, TagText(tags[0])), tags[1..]);
    } else {
      assert Run(q, []) == q;
    }
  }

  lemma RunTags(q: State, tags: seq<seq<seq<byte>>>)
    ensures q == Outside ==> Run(q, Joined(TagPieces(tags))) == Outside
    ensures WrongWay(q) ==> WrongWay(Run(q, Joined(TagPieces(tags))))
  {
    if tags == [] {
      assert Run(q, []) == q;
    } else {
      TagPiecesRest(tags);
      var next := Tail(TagPieces(tags[1..]));
      assert Joined(TagPieces(tags)) == TagText(tags[0]) + next;
      hide Run, TagText, TagPieces, Tail;
      RunTag(q, tags[0]);
      RunAppend(q, TagText(tags[0]), next);
      RunTagTail(Run(q, TagText(tags[0])), tags[1..]);
    }
  }

  lemma RunDecimal(q: State, n: int)
    ensures q == Inside || q == Outside ==> Run(q, [0x2C] + Decimal(n)) == q
  {
    DecimalShape(n);
    hide Decimal;
    RunPlain(q, [0x2C] + Decimal(n));
  }

  /** Read from outside a string the fields end outside one; read from inside they do not. */
  lemma RunFields(q: State, e: Event)
    ensures q == Outside ==> Run(q, Fields(e)) == Outside
    ensures q == Inside ==> WrongWay(Run(q, Fields(e)))
  {
    hide Decimal, Joined, TagPieces, Quoted, Run;
    var at, kind, tags, content := Decimal(e.createdAt), Decimal(e.kind), Joined(TagPieces(e.tags)), Quoted(e.content);
    var a := [0x2C] + at + ([0x2C] + kind) + [0x2C, 0x5B];
    assert Fields(e) == a + tags + [0x5D, 0x2C] + content + [0x5D];
    if q == Outside || q == Inside {
      RunAppend(q, [0x2C] + at + ([0x2C] + kind), [0x2C, 0x5B]);
      RunAppend(q, [0x2C] + at, [0x2C] + kind);
      RunDecimal(q, e.createdAt);
      RunDecimal(q, e.kind);
      RunPlain(q, [0x2C, 0x5B]);
      RunTags(q, e.tags);
      var q1 := Run(q, tags);
      RunPlain(q1, [0x5D, 0x2C]);
      RunDead([0x5D, 0x2C]);
      RunQuoted(q1, e.content);
      RunDead(content);
      RunOne(Run(q1, content), 0x5D);
      RunAppend(q, a + tags + [0x5D, 0x2C] + content, [0x5D]);
      RunAppend(q, a + tags + [0x5D, 0x2C], content);
      RunAppend(q, a + tags, [0x5D, 0x2C]);
      RunAppend(q, a, tags);
    }
  }

  /** No event's fields end with a second key's end and fields. */
  lemma NoHiddenFields(e: Event, x: seq<byte>, f: Event)
    ensures Fields(f) != x + AfterKey(e)
  {
    hide Fields, Decimal, Run;
    RunFields(Outside, f);
    var q := Run(Outside, x);
    RunAppend(Outside, x, AfterKey(e));
    RunAppend(q, [0x22], Fields(e));
    RunOne(q, 0x22);
    RunFields(Inside, e);
    RunDead(Fields(e));
    if q == Inside {
      NumberAfterString(e);
    }
  }

  lemma NumberAfterString(e: Event)
    ensures Run(Closed, Fields(e)) == Dead
  {
    DecimalShape(e.createdAt);
    var d := Decimal(e.createdAt);
    var b := Fields(e);
    hide Decimal, Joined, TagPieces, Quoted, Fields;
    FieldsStart(e);
    assert b == [0x2C, d[0]] + b[2..];
    RunAppend(Closed, [0x2C, d[0]], b[2..]);
    assert [0x2C, d[0]] == [0x2C] + [d[0]];
    RunAppend(Closed, [0x2C], [d[0]]);
    RunOne(Closed, 0x2C);
    RunOne(Next, d[0]);
    RunDead(b[2..]);
  }

  lemma FieldsStart(e: Event)
    ensures |Fields(e)| >= 2 && Fields(e)[0] == 0x2C && Fields(e)[1] == Decimal(e.createdAt)[0]
  {
    hide Decimal, Joined, TagPieces, Quoted;
  }

  /** Different events have different canonical forms. Nothing is asked of the key. */
  lemma Injective(e: Event, f: Event)
    requires Serialized(e) == Serialized(f)
    ensures e == f
  {
    hide Fields, ReadFields;
    var a, b := e.pubkey + AfterKey(e), f.pubkey + AfterKey(f);
    assert Serialized(e)[4..] == a && Serialized(f)[4..] == b;
    if |e.pubkey| == |f.pubkey| {
      assert a[..|e.pubkey|] == e.pubkey && b[..|f.pubkey|] == f.pubkey;
      assert a[|e.pubkey| + 1..] == Fields(e) && b[|f.pubkey| + 1..] == Fields(f);
      FieldsBack(e);
      FieldsBack(f);
    } else if |e.pubkey| > |f.pubkey| {
      Longer(e, f);
    } else {
      Longer(f, e);
    }
  }

  lemma Longer(e: Event, f: Event)
    requires |e.pubkey| > |f.pubkey|
    ensures e.pubkey + AfterKey(e) != f.pubkey + AfterKey(f)
  {
    hide Fields;
    var a, b := e.pubkey + AfterKey(e), f.pubkey + AfterKey(f);
    var n := |f.pubkey| + 1;
    assert b[n..] == Fields(f);
    assert a[n..] == e.pubkey[n..] + AfterKey(e);
    NoHiddenFields(e, e.pubkey[n..], f);
  }
}
