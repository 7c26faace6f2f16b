// json.dumps(obj, sort_keys=True, separators=(",", ":")) for objects whose
// values are strings, with the default ASCII escapes of section 7 of RFC 8259,
// and a parser for that output. The parser is there to prove that the text
// determines every field.

module Json {
  import opened Basics
  import opened Text

  const HIGH := 0xD800
  const LOW := 0xDC00
  const ASTRAL := 0x10000

  function Hex4(n: nat): (s: string)
    requires n < 0x10000
    ensures |s| == 4
  {
    [HexDigit(n / 4096), HexDigit(n / 256 % 16), HexDigit(n / 16 % 16), HexDigit(n % 16)]
  }

  function ParseHex4(s: string): (n: Option<nat>)
    requires |s| == 4
    ensures n.Some? ==> n.value < 0x10000
  {
    match (HexValue(s[0]), HexValue(s[1]), HexValue(s[2]), HexValue(s[3]))
    case (Some(a), Some(b), Some(c), Some(d)) => Some(4096 * a + 256 * b + 16 * c + d)
    case _ => None
  }

  predicate IsAscii(s: string) {
    forall i :: 0 <= i < |s| ==> s[i] as int < 128
  }

  /** The escape of one character inside a JSON string, with ensure_ascii. */
  function EscapeChar(c: char): (s: string)
    ensures s != "" && s[0] != '"'
  {
    if c == '"' then "\\\""
    else if c == '\\' then "\\\\"
    else if c == '\n' then "\\n"
    else if c == '\r' then "\\r"
    else if c == '\t' then "\\t"
    else if c as int == 12 then "\\f"
    else if c as int == 8 then "\\b"
    else if ' ' <= c <= '~' then [c]
    else EscapeUnicode(c)
  }

  /** The \uXXXX form; a surrogate pair beyond the basic plane. */
  function EscapeUnicode(c: char): (s: string)
    ensures |s| >= 6 && s[0] == '\\' && s[1] == 'u'
  {
    if c as int < ASTRAL then "\\u" + Hex4(c as int)
    else "\\u" + Hex4(HighHalf(c)) + "\\u" + Hex4(LowHalf(c))
  }

  function HighHalf(c: char): (n: nat)
    requires c as int >= ASTRAL
    ensures HIGH <= n < LOW
  {
    HIGH + (c as int - ASTRAL) / 1024
  }

  function LowHalf(c: char): (n: nat)
    requires c as int >= ASTRAL
    ensures LOW <= n < 0xE000
  {
    LOW + (c as int - ASTRAL) % 1024
  }

  function Combine(high: nat, low: nat): char
    requires HIGH <= high < LOW <= low < 0xE000
  {
    (ASTRAL + (high - HIGH) * 1024 + (low - LOW)) as char
  }

  function Escape(s: string): (e: string)
  {
    if s == "" then "" else EscapeChar(s[0]) + Escape(s[1..])
  }

  function Quote(s: string): (q: string)
  {
    "\"" + Escape(s) + "\""
  }

  type Field = (string, string)

  function Member(f: Field): (s: string)
  {
    Quote(f.0) + ":" + Quote(f.1)
  }

  function Members(fields: seq<Field>): (s: string)
  {
    if fields == [] then ""
    else if |fields| == 1 then Member(fields[0])
    else Member(fields[0]) + "," + Members(fields[1..])
  }

  /** The compact dump of an object; the caller lists the fields in key order. */
  function Dumps(fields: seq<Field>): (s: string)
  {
    "{" + Members(fields) + "}"
  }

  // ---- Key order ----

  /** Python's order on strings: by code point, a proper prefix first. */
  ghost predicate Less(a: string, b: string) {
    exists n: nat :: LessAt(a, b, n)
  }

  predicate LessAt(a: string, b: string, n: nat) {
    && n <= |a| && n < |b| && a[..n] == b[..n]
    && (n == |a| || a[n] < b[n])
  }

  ghost predicate KeysAscend(fields: seq<Field>) {
    forall i :: 0 <= i < |fields| - 1 ==> Less(fields[i].0, fields[i + 1].0)
  }

  lemma LessTransitive(a: string, b: string, c: string)
    requires Less(a, b) && Less(b, c)
    ensures Less(a, c)
  {
    var n: nat :| LessAt(a, b, n);
    var m: nat :| LessAt(b, c, m);
    var k := Min(n, m);
    assert a[..k] == a[..n][..k] == b[..n][..k] == b[..m][..k] == c[..m][..k] == c[..k];
    assert k < n ==> a[k] == a[..n][k] == b[..n][k] == b[k];
    assert k < m ==> b[k] == b[..m][k] == c[..m][k] == c[k];
    assert LessAt(a, c, k);
  }

  lemma {:induction false} KeysLess(fields: seq<Field>, i: nat, j: nat)
    requires KeysAscend(fields) && i < j < |fields|
    ensures Less(fields[i].0, fields[j].0)
    decreases j
  {
    assert Less(fields[j - 1].0, fields[j].0);
    if i < j - 1 {
      KeysLess(fields, i, j - 1);
      LessTransitive(fields[i].0, fields[j - 1].0, fields[j].0);
    }
  }

  /** What obj[name] yields. */
  function Get(fields: seq<Field>, name: string): Option<string> {
    if fields == [] then None else if fields[0].0 == name then Some(fields[0].1) else Get(fields[1..], name)
  }

  lemma {:induction false} GetFrom(fields: seq<Field>, name: string, k: nat, i: nat)
    requires k <= i < |fields| && fields[i].0 == name && forall j :: k <= j < i ==> fields[j].0 != name
    ensures Get(fields[k..], name) == Some(fields[i].1)
    decreases i - k
  {
    assert fields[k..][0] == fields[k] && fields[k..][1..] == fields[k + 1..];
    if k < i {
      GetFrom(fields, name, k + 1, i);
    }
  }

  /** In ascending order no key comes twice, so every field is found under its key. */
  lemma GetAt(fields: seq<Field>, i: nat)
    requires KeysAscend(fields) && i < |fields|
    ensures Get(fields, fields[i].0) == Some(fields[i].1)
  {
    forall j | 0 <= j < i ensures fields[j].0 != fields[i].0 {
      KeysLess(fields, j, i);
    }
    GetFrom(fields, fields[i].0, 0, i);
    assert fields[0..] == fields;
  }

  // ---- Parsing ----

  datatype Parsed<+T> = Bad | Parsed(value: T, rest: string)

  /** One possibly escaped character at the head of s. */
  function ParseChar(s: string): (p: Parsed<char>)
    requires s != ""
    ensures p.Parsed? ==> |p.rest| < |s|
  {
    if s[0] != '\\' then Parsed(s[0], s[1..])
    else if |s| < 2 then Bad
    else match s[1]
      case '"' => Parsed('"', s[2..])
      case '\\' => Parsed('\\', s[2..])
      case 'n' => Parsed('\n', s[2..])
      case 'r' => Parsed('\r', s[2..])
      case 't' => Parsed('\t', s[2..])
      case 'f' => Parsed(12 as char, s[2..])
      case 'b' => Parsed(8 as char, s[2..])
      case 'u' => ParseUnicode(s)
      case _ => Bad
  }

  function ParseUnicode(s: string): (p: Parsed<char>)
    requires |s| >= 2
    ensures p.Parsed? ==> |p.rest| < |s|
  {
    if |s| < 6 then Bad
    else match ParseHex4(s[2..6])
      case None => Bad
      case Some(n) =>
        if n < HIGH || 0xE000 <= n then Parsed(n as char, s[6..])
        else if n >= LOW || |s| < 12 || s[6..8] != "\\u" then Bad
        else match ParseHex4(s[8..12])
          case None => Bad
          case Some(m) =>
            if LOW <= m < 0xE000 then Parsed(Combine(n, m), s[12..]) else Bad
  }

  /** The characters up to the closing quote. */
  function ParseBody(s: string): (p: Parsed<string>)
    ensures p.Parsed? ==> |p.rest| < |s|
    decreases |s|
  {
    if s == "" then Bad
    else if s[0] == '"' then Parsed("", s[1..])
    else match ParseChar(s)
      case Bad => Bad
      case Parsed(c, rest) =>
        match ParseBody(rest)
        case Bad => Bad
        case Parsed(cs, rest') => Parsed([c] + cs, rest')
  }

  function ParseString(s: string): (p: Parsed<string>)
    ensures p.Parsed? ==> |p.rest| < |s|
  {
    if s == "" || s[0] != '"' then Bad else ParseBody(s[1..])
  }

  function ParseMember(s: string): (p: Parsed<Field>)
    ensures p.Parsed? ==> |p.rest| < |s|
  {
    match ParseString(s)
    case Bad => Bad
    case Parsed(k, rest) =>
      if rest == "" || rest[0] != ':' then Bad
      else match ParseString(rest[1..])
        case Bad => Bad
        case Parsed(v, rest') => Parsed((k, v), rest')
  }

  function ParseMembers(s: string): (p: Parsed<seq<Field>>)
    decreases |s|
  {
    match ParseMember(s)
    case Bad => Bad
    case Parsed(f, rest) =>
      if rest != "" && rest[0] == '}' then Parsed([f], rest[1..])
      else if rest == "" || rest[0] != ',' then Bad
      else match ParseMembers(rest[1..])
        case Bad => Bad
        case Parsed(fs, rest') => Parsed([f] + fs, rest')
  }

  function Loads(s: string): Option<seq<Field>> {
    if |s| < 2 || s[0] != '{' then None
    else if s == "{}" then Some([])
    else match ParseMembers(s[1..])
      case Bad => None
      case Parsed(fs, rest) => if rest == "" then Some(fs) else None
  }

  // ---- The text determines the fields ----

  lemma Hex4RoundTrip(n: nat)
    requires n < 0x10000
    ensures ParseHex4(Hex4(n)) == Some(n)
  {
    var a, b, c, d := n / 4096, n / 256 % 16, n / 16 % 16, n % 16;
    assert n == 4096 * a + n % 4096;
    assert n == 256 * (n / 256) + n % 256 && n / 256 == 16 * a + b;
    assert n == 16 * (n / 16) + d && n / 16 == 16 * (n / 256) + c;
  }

  lemma UnicodeRoundTrip(n: nat, rest: string)
    requires n < HIGH || 0xE000 <= n < ASTRAL
    ensures ParseUnicode("\\u" + Hex4(n) + rest) == Parsed(n as char, rest)
  {
    var s := "\\u" + Hex4(n) + rest;
    Hex4RoundTrip(n);
    assert s[2..6] == Hex4(n);
    assert s[6..] == rest;
  }

  lemma SurrogateRoundTrip(high: nat, low: nat, rest: string)
    requires HIGH <= high < LOW <= low < 0xE000
    ensures ParseUnicode("\\u" + Hex4(high) + "\\u" + Hex4(low) + rest)
            == Parsed(Combine(high, low), rest)
  {
    var h, l := Hex4(high), Hex4(low);
    var s := "\\u" + h + "\\u" + l + rest;
    Hex4RoundTrip(high);
    Hex4RoundTrip(low);
    assert s[2..6] == h && s[6..8] == "\\u" && s[8..12] == l && s[12..] == rest;
  }

  predicate NeedsUnicode(c: char) {
    !(' ' <= c <= '~') && c !in "\n\r\t" && c as int != 12 && c as int != 8
  }

  lemma ShortRoundTrip(c: char, rest: string)
    requires !NeedsUnicode(c)
    ensures ParseChar(EscapeChar(c) + rest) == Parsed(c, rest)
  {
    var e := EscapeChar(c);
    var s := e + rest;
    assert s[0] == e[0] && s[|e|..] == rest;
    if |e| == 2 {
      assert s[1] == e[1];
    }
  }

  lemma LongRoundTrip(c: char, rest: string)
    ensures ParseUnicode(EscapeUnicode(c) + rest) == Parsed(c, rest)
  {
    if c as int < ASTRAL {
      UnicodeRoundTrip(c as int, rest);
    } else {
      AstralRoundTrip(c, rest);
    }
  }

  lemma AstralRoundTrip(c: char, rest: string)
    requires c as int >= ASTRAL
    ensures ParseUnicode(EscapeUnicode(c) + rest) == Parsed(c, rest)
  {
    SurrogateRoundTrip(HighHalf(c), LowHalf(c), rest);
    CombineHalves(c);
  }

  lemma CombineHalves(c: char)
    requires c as int >= ASTRAL
    ensures Combine(HighHalf(c), LowHalf(c)) == c
  {}

  lemma ParseLong(s: string)
    requires |s| >= 2 && s[0] == '\\' && s[1] == 'u'
    ensures ParseChar(s) == ParseUnicode(s)
  {}

  lemma CharRoundTrip(c: char, rest: string)
    ensures ParseChar(EscapeChar(c) + rest) == Parsed(c, rest)
  {
    if !NeedsUnicode(c) {
      ShortRoundTrip(c, rest);
    } else {
      LongRoundTrip(c, rest);
      assert EscapeChar(c) == EscapeUnicode(c);
      ParseLong(EscapeUnicode(c) + rest);
    }
  }

  lemma {:induction false} BodyRoundTrip(s: string, rest: string)
    ensures ParseBody(Escape(s) + "\"" + rest) == Parsed(s, rest)
  {
    var text := Escape(s) + "\"" + rest;
    if s == "" {
      assert text == "\"" + rest;
      assert text[1..] == rest;
    } else {
      var tail := Escape(s[1..]) + "\"" + rest;
      assert text == EscapeChar(s[0]) + tail;
      CharRoundTrip(s[0], tail);
      BodyRoundTrip(s[1..], rest);
      assert s == [s[0]] + s[1..];
    }
  }

  lemma StringRoundTrip(s: string, rest: string)
    ensures ParseString(Quote(s) + rest) == Parsed(s, rest)
  {
    assert (Quote(s) + rest)[1..] == Escape(s) + "\"" + rest;
    BodyRoundTrip(s, rest);
  }

  lemma MemberRoundTrip(f: Field, rest: string)
    ensures ParseMember(Member(f) + rest) == Parsed(f, rest)
  {
    var tail := ":" + Quote(f.1) + rest;
    assert Member(f) + rest == Quote(f.0) + tail;
    StringRoundTrip(f.0, tail);
    assert tail[1..] == Quote(f.1) + rest;
    StringRoundTrip(f.1, rest);
  }

  lemma MembersStep(f: Field, fs: seq<Field>, text: string)
    requires ParseMembers(text) == Parsed(fs, "")
    ensures ParseMembers(Member(f) + "," + text) == Parsed([f] + fs, "")
  {
    var tail := "," + text;
    assert Member(f) + "," + text == Member(f) + tail;
    MemberRoundTrip(f, tail);
    assert tail[1..] == text;
  }

  lemma MembersLast(f: Field)
    ensures ParseMembers(Member(f) + "}") == Parsed([f], "")
  {
    MemberRoundTrip(f, "}");
  }

  lemma MembersCons(fields: seq<Field>)
    requires |fields| > 1
    ensures Members(fields) + "}" == Member(fields[0]) + "," + (Members(fields[1..]) + "}")
  {}

  lemma {:induction false} MembersRoundTrip(fields: seq<Field>)
    requires fields != []
    ensures ParseMembers(Members(fields) + "}") == Parsed(fields, "")
  {
    if |fields| == 1 {
      MembersLast(fields[0]);
      assert fields == [fields[0]];
    } else {
      assert fields == [fields[0]] + fields[1..];
      MembersRoundTrip(fields[1..]);
      MembersStep(fields[0], fields[1..], Members(fields[1..]) + "}");
      MembersCons(fields);
    }
  }

  /** Parsing a dump gives back every key and every value. */
  lemma RoundTrip(fields: seq<Field>)
    ensures Loads(Dumps(fields)) == Some(fields)
  {
    var s := Dumps(fields);
    if fields != [] {
      var text := Members(fields) + "}";
      MembersRoundTrip(fields);
      assert s[1..] == text;
      assert s[1] == '"';
    }
  }

  lemma HexAscii(n: nat)
    requires n < 0x10000
    ensures IsAscii(Hex4(n))
  {}

  lemma EscapeCharAscii(c: char)
    ensures IsAscii(EscapeChar(c))
  {
    if NeedsUnicode(c) {
      if c as int < ASTRAL {
        HexAscii(c as int);
      } else {
        HexAscii(HighHalf(c));
        HexAscii(LowHalf(c));
      }
    }
  }

  lemma {:induction false} QuoteAscii(s: string)
    ensures IsAscii(Escape(s)) && IsAscii(Quote(s))
  {
    if s != "" {
      EscapeCharAscii(s[0]);
      QuoteAscii(s[1..]);
    }
  }

  lemma {:induction false} MembersAscii(fields: seq<Field>)
    ensures IsAscii(Members(fields))
  {
    if fields != [] {
      QuoteAscii(fields[0].0);
      QuoteAscii(fields[0].1);
      MembersAscii(fields[1..]);
    }
  }

  /** With ensure_ascii the whole dump is ASCII. */
  lemma DumpsAscii(fields: seq<Field>)
    ensures IsAscii(Dumps(fields))
  {
    MembersAscii(fields);
  }

  lemma DumpsInjective(a: seq<Field>, b: seq<Field>)
    requires Dumps(a) == Dumps(b)
    ensures a == b
  {
    RoundTrip(a);
    RoundTrip(b);
  }

  /** str.encode("utf-8") of ASCII text: one byte a character. */
  function Encode(s: string): (b: seq<byte>)
    requires IsAscii(s)
    ensures |b| == |s|
  {
    seq(|s|, i requires 0 <= i < |s| => s[i] as int)
  }

  /** json.dumps(...).encode("utf-8"). */
  function DumpsBytes(fields: seq<Field>): (b: seq<byte>)
    ensures |b| >= 2
  {
    DumpsAscii(fields);
    Encode(Dumps(fields))
  }

  lemma DumpsBytesInjective(a: seq<Field>, b: seq<Field>)
    requires DumpsBytes(a) == DumpsBytes(b)
    ensures a == b
  {
    DumpsAscii(a);
    DumpsAscii(b);
    EncodeInjective(Dumps(a), Dumps(b));
    DumpsInjective(a, b);
  }

  lemma EncodeInjective(s: string, t: string)
    requires IsAscii(s) && IsAscii(t) && Encode(s) == Encode(t)
    ensures s == t
  {
    assert |s| == |t|;
    forall i | 0 <= i < |s| ensures s[i] == t[i] {
      assert Encode(s)[i] == Encode(t)[i];
    }
  }
}
