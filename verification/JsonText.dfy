/** The JSON rendering of a list of strings (`json.dumps` with its defaults),
    which is how a finding's references enter the persistence-order key. */
module JsonText {
  import opened Options

  function HexDigit(d: nat): char
    requires d < 16
  {
    if d < 10 then ('0' as int + d) as char else ('a' as int + (d - 10)) as char
  }

  function FromHexDigit(c: char): int {
    if '0' <= c <= '9' then c as int - '0' as int else c as int - 'a' as int + 10
  }

  /** `\uXXXX` for one UTF-16 code unit. */
  function UnicodeEscape(n: nat): (t: string)
    requires n < 0x1_0000
    ensures |t| == 6
  {
    ['\\', 'u', HexDigit(n / 4096), HexDigit(n / 256 % 16), HexDigit(n / 16 % 16), HexDigit(n % 16)]
  }

  function ShortEscape(c: char): (e: char) {
    if c == '\n' then 'n' else if c == '\r' then 'r' else if c == '\t' then 't'
    else if c as int == 8 then 'b' else if c as int == 12 then 'f' else c
  }

  predicate HasShortEscape(c: char) {
    c == '"' || c == '\\' || c == '\n' || c == '\r' || c == '\t' || c as int == 8 || c as int == 12
  }

  /** One character as JSON text: printable ASCII stands for itself, the rest is
      escaped, a character beyond the basic plane as a surrogate pair. */
  function Escape(c: char): (t: string)
    ensures t != []
    ensures t[0] != '"'
  {
    if HasShortEscape(c) then ['\\', ShortEscape(c)]
    else if ' ' <= c <= '~' then [c]
    else if c as int < 0x1_0000 then UnicodeEscape(c as int)
    else
      var v := c as int - 0x1_0000;
      UnicodeEscape(0xD800 + v / 1024) + UnicodeEscape(0xDC00 + v % 1024)
  }

  /** The value a `\uXXXX` at the head of `t` spells. */
  function CodeUnit(t: string): int
    requires |t| >= 6
  {
    FromHexDigit(t[2]) * 4096 + FromHexDigit(t[3]) * 256 + FromHexDigit(t[4]) * 16 + FromHexDigit(t[5])
  }

  lemma HexDigitRoundTrip(d: nat)
    requires d < 16
    ensures FromHexDigit(HexDigit(d)) == d
  {
  }

  lemma HexDigitsSpell(n: nat)
    requires n < 0x1_0000
    ensures (n / 4096) * 4096 + (n / 256 % 16) * 256 + (n / 16 % 16) * 16 + n % 16 == n
  {
    assert n / 256 == (n / 16) / 16 && n / 4096 == (n / 256) / 16;
  }

  lemma CodeUnitRoundTrip(n: nat, x: string)
    requires n < 0x1_0000
    ensures CodeUnit(UnicodeEscape(n) + x) == n
  {
    HexDigitsSpell(n);
    var t := UnicodeEscape(n) + x;
    assert t[2] == HexDigit(n / 4096) && t[3] == HexDigit(n / 256 % 16);
    assert t[4] == HexDigit(n / 16 % 16) && t[5] == HexDigit(n % 16);
    HexDigitRoundTrip(n / 4096);
    HexDigitRoundTrip(n / 256 % 16);
    HexDigitRoundTrip(n / 16 % 16);
    HexDigitRoundTrip(n % 16);
  }

  /** The first code unit tells a basic-plane character from a surrogate pair,
      and with the second recovers the character. */
  lemma FirstUnit(c: char, x: string)
    requires !HasShortEscape(c) && !(' ' <= c <= '~')
    ensures var t := Escape(c) + x;
      && |t| >= 6
      && (c as int < 0x1_0000 ==> CodeUnit(t) == c as int)
      && (c as int >= 0x1_0000 ==>
            && |t| >= 12 && 0xD800 <= CodeUnit(t) < 0xDC00
            && c as int == 0x1_0000 + (CodeUnit(t) - 0xD800) * 1024 + (CodeUnit(t[6..]) - 0xDC00))
  {
    var t := Escape(c) + x;
    if c as int < 0x1_0000 {
      CodeUnitRoundTrip(c as int, x);
    } else {
      var v := c as int - 0x1_0000;
      var hi, lo := UnicodeEscape(0xD800 + v / 1024), UnicodeEscape(0xDC00 + v % 1024);
      assert t == hi + (lo + x);
      assert t[6..] == lo + x;
      CodeUnitRoundTrip(0xD800 + v / 1024, lo + x);
      CodeUnitRoundTrip(0xDC00 + v % 1024, x);
    }
  }

  function Escaped(s: string): string {
    if s == "" then "" else Escape(s[0]) + Escaped(s[1..])
  }

  function Quoted(s: string): string {
    "\"" + Escaped(s) + "\""
  }

  function Items(refs: seq<string>): string {
    if refs == [] then "]"
    else if |refs| == 1 then Quoted(refs[0]) + "]"
    else Quoted(refs[0]) + ", " + Items(refs[1..])
  }

  /** `json.dumps(list(refs))`. */
  function Dumps(refs: seq<string>): string {
    "[" + Items(refs)
  }

  // ------------------------------------------------------------------ reading back

  /** The character at the head of a string's content, as section 7 of RFC 8259
      reads it, and what follows. */
  function ReadChar(t: string): (r: Option<(char, string)>)
    ensures r.Some? ==> |r.value.1| < |t|
  {
    if t == "" || t[0] == '"' || t[0] < ' ' then None
    else if t[0] != '\\' then Some((t[0], t[1..]))
    else if |t| < 2 then None
    else if t[1] == 'u' then ReadUnit(t)
    else match ReadShort(t[1])
      case None => None
      case Some(c) => Some((c, t[2..]))
  }

  function ReadShort(e: char): Option<char> {
    match e
    case '"' => Some('"') case '\\' => Some('\\') case '/' => Some('/')
    case 'b' => Some(8 as char) case 'f' => Some(12 as char)
    case 'n' => Some(10 as char) case 'r' => Some(13 as char) case 't' => Some(9 as char)
    case _ => None
  }

  /** A `\uXXXX`, or the two of a surrogate pair. */
  function ReadUnit(t: string): (r: Option<(char, string)>)
    ensures r.Some? ==> |r.value.1| < |t|
  {
    if |t| < 6 then None
    else
      var u := CodeUnit(t);
      if 0xD800 <= u < 0xDC00 then
        if |t| < 12 || t[6] != '\\' || t[7] != 'u' then None
        else
          var v := CodeUnit(t[6..]);
          if 0xDC00 <= v < 0xE000 then Some(((0x1_0000 + (u - 0xD800) * 1024 + (v - 0xDC00)) as char, t[12..])) else None
      else if 0 <= u < 0xD800 || 0xE000 <= u < 0x1_0000 then Some((u as char, t[6..])) else None
  }

  /** A string whose opening quote has been read, and what follows the closing one. */
  function ReadString(t: string): (r: Option<(string, string)>)
    ensures r.Some? ==> |r.value.1| < |t|
    decreases |t|
  {
    if t == "" then None
    else if t[0] == '"' then Some(("", t[1..]))
    else match ReadChar(t)
      case None => None
      case Some((c, rest)) =>
        match ReadString(rest)
        case None => None
        case Some((s, end)) => Some(([c] + s, end))
  }

  /** The items of a list up to its closing bracket, which ends the text. */
  function ReadItems(t: string): Option<seq<string>>
    decreases |t|
  {
    if t == "" || t[0] != '"' then None
    else match ReadString(t[1..])
      case None => None
      case Some((s, rest)) =>
        if rest == "]" then Some([s])
        else if |rest| < 2 || rest[..2] != ", " then None
        else match ReadItems(rest[2..])
          case None => None
          case Some(more) => Some([s] + more)
  }

  function Loads(t: string): Option<seq<string>> {
    if t == "[]" then Some([]) else if t == "" || t[0] != '[' then None else ReadItems(t[1..])
  }

  lemma ShortEscapeReadsBack(c: char)
    requires HasShortEscape(c)
    ensures ReadShort(ShortEscape(c)) == Some(c) && ShortEscape(c) != 'u'
  {
  }

  lemma LongEscapeReadsBack(c: char, x: string)
    requires !HasShortEscape(c) && !(' ' <= c <= '~')
    ensures ReadUnit(Escape(c) + x) == Some((c, x))
  {
    FirstUnit(c, x);
    var t := Escape(c) + x;
    if c as int >= 0x1_0000 {
      SecondUnit(c, x);
      assert t[12..] == x;
    } else {
      assert t[6..] == x;
    }
  }

  lemma SecondUnit(c: char, x: string)
    requires c as int >= 0x1_0000
    ensures var t := Escape(c) + x;
      |t| >= 12 && t[6] == '\\' && t[7] == 'u' && 0xDC00 <= CodeUnit(t[6..]) < 0xE000
  {
    var v := c as int - 0x1_0000;
    var hi, lo := UnicodeEscape(0xD800 + v / 1024), UnicodeEscape(0xDC00 + v % 1024);
    var t := Escape(c) + x;
    assert t == hi + (lo + x) && t[6..] == lo + x;
    CodeUnitRoundTrip(0xDC00 + v % 1024, x);
  }

  lemma EscapeReadsBack(c: char, x: string)
    ensures ReadChar(Escape(c) + x) == Some((c, x))
  {
    var t := Escape(c) + x;
    assert t[0] == Escape(c)[0];
    if HasShortEscape(c) {
      ShortEscapeReadsBack(c);
      assert t[2..] == x;
    } else if ' ' <= c <= '~' {
      assert t[1..] == x;
    } else {
      assert t[1] == Escape(c)[1] == 'u';
      LongEscapeReadsBack(c, x);
    }
  }

  lemma {:induction false} StringReadsBack(s: string, x: string)
    ensures ReadString(Escaped(s) + "\"" + x) == Some((s, x))
  {
    var t := Escaped(s) + "\"" + x;
    if s == "" {
      assert t[0] == '"' && t[1..] == x;
    } else {
      var rest := Escaped(s[1..]) + "\"" + x;
      assert t == Escape(s[0]) + rest;
      EscapeReadsBack(s[0], rest);
      StringReadsBack(s[1..], x);
      assert t[0] == Escape(s[0])[0];
      assert [s[0]] + s[1..] == s;
    }
  }

  lemma QuotedReadsBack(s: string, x: string)
    ensures (Quoted(s) + x)[0] == '"' && ReadString((Quoted(s) + x)[1..]) == Some((s, x))
  {
    StringReadsBack(s, x);
    assert (Quoted(s) + x)[1..] == Escaped(s) + "\"" + x;
  }

  lemma {:induction false} ItemsReadBack(refs: seq<string>)
    requires refs != []
    ensures ReadItems(Items(refs)) == Some(refs)
  {
    if |refs| == 1 {
      QuotedReadsBack(refs[0], "]");
      assert [refs[0]] == refs;
    } else {
      var tail := ", " + Items(refs[1..]);
      QuotedReadsBack(refs[0], tail);
      FirstItem(refs);
      assert tail[..2] == ", " && tail[2..] == Items(refs[1..]);
      ItemsReadBack(refs[1..]);
      assert [refs[0]] + refs[1..] == refs;
    }
  }

  lemma ItemsBeginWithAQuote(refs: seq<string>)
    requires refs != []
    ensures Items(refs) != "" && Items(refs)[0] == '"'
  {
    QuotedReadsBack(refs[0], if |refs| == 1 then "]" else ", " + Items(refs[1..]));
    FirstItem(refs);
  }

  lemma FirstItem(refs: seq<string>)
    requires refs != []
    ensures Items(refs) == Quoted(refs[0]) + (if |refs| == 1 then "]" else ", " + Items(refs[1..]))
  {
  }

  lemma LoadsTheItems(t: string)
    requires t != "" && t[0] == '"'
    ensures Loads("[" + t) == ReadItems(t)
  {
    assert ("[" + t)[1..] == t && ("[" + t)[1] == t[0];
    assert "[]"[1] == ']';
  }

  /** Rendering and reading round-trip: a JSON reader gets the list back. */
  lemma DumpsReadsBack(refs: seq<string>)
    ensures Loads(Dumps(refs)) == Some(refs)
  {
    if refs != [] {
      ItemsReadBack(refs);
      ItemsBeginWithAQuote(refs);
      LoadsTheItems(Items(refs));
    }
  }

  /** Two reference lists render to the same text only when they are equal. */
  lemma DumpsIsInjective(a: seq<string>, b: seq<string>)
    requires Dumps(a) == Dumps(b)
    ensures a == b
  {
    DumpsReadsBack(a);
    DumpsReadsBack(b);
  }
}
