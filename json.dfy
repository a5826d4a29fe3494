/** The JSON text the formatter writes with the logging library's helpers: quoted, escaped
    strings and objects of string-valued members; and a parser for that text, so that what is
    written can be shown to read back as what was meant. */
module Json {
  import opened Common

  const FormFeed: char := 12 as char
  const Backspace: char := 8 as char

  /** An uppercase hexadecimal digit. */
  function HexDigit(n: nat): (c: char)
    requires n < 16
  {
    if n < 10 then ('0' as int + n) as char else ('A' as int + n - 10) as char
  }

  function HexValue(c: char): (r: Option<nat>)
    ensures r.Some? ==> r.value < 16
  {
    if '0' <= c <= '9' then Some(c as int - '0' as int)
    else if 'A' <= c <= 'F' then Some(c as int - 'A' as int + 10)
    else if 'a' <= c <= 'f' then Some(c as int - 'a' as int + 10)
    else None
  }

  lemma HexRoundTrip(n: nat)
    requires n < 16
    ensures HexValue(HexDigit(n)) == Some(n)
  {
  }

  /** The escape WriteQuotedJsonString writes for one character: a backslash before `"` and
      `\`, the short escapes of newline, carriage return, form feed and tab, `\u00XX` for the
      other control characters, and the character itself otherwise. */
  function EscapeChar(c: char): string {
    if c == '"' then ['\\', '"']
    else if c == '\\' then ['\\', '\\']
    else if c == '\n' then ['\\', 'n']
    else if c == '\r' then ['\\', 'r']
    else if c == FormFeed then ['\\', 'f']
    else if c == '\t' then ['\\', 't']
    else if c < ' ' then ['\\', 'u', '0', '0', HexDigit(c as int / 16), HexDigit(c as int % 16)]
    else [c]
  }

  function Escape(s: string): string {
    if s == [] then [] else EscapeChar(s[0]) + Escape(s[1..])
  }

  /** A JSON string literal. */
  function Quote(s: string): string {
    ['"'] + Escape(s) + ['"']
  }

  /** Reads the rest of a string literal, after its opening quote: the decoded text and what
      follows the closing quote. */
  function ParseStringBody(t: string): (r: Option<(string, string)>)
    ensures r.Some? ==> |r.value.1| < |t|
    decreases |t|
  {
    if t == [] then None
    else if t[0] == '"' then Some(([], t[1..]))
    else if t[0] == '\\' then
      if |t| < 2 then None
      else
        var e := t[1];
        if e == 'u' then
          if |t| < 6 then None
          else
            var h := [HexValue(t[2]), HexValue(t[3]), HexValue(t[4]), HexValue(t[5])];
            if exists i :: 0 <= i < 4 && h[i].None? then None
            else
              var v := ((h[0].value * 16 + h[1].value) * 16 + h[2].value) * 16 + h[3].value;
              if 0xD800 <= v <= 0xDFFF then None  // a lone surrogate
              else Prepend(v as char, ParseStringBody(t[6..]))
        else if e in ['"', '\\', '/'] then Prepend(e, ParseStringBody(t[2..]))
        else if e == 'n' then Prepend('\n', ParseStringBody(t[2..]))
        else if e == 'r' then Prepend('\r', ParseStringBody(t[2..]))
        else if e == 'f' then Prepend(FormFeed, ParseStringBody(t[2..]))
        else if e == 't' then Prepend('\t', ParseStringBody(t[2..]))
        else if e == 'b' then Prepend(Backspace, ParseStringBody(t[2..]))
        else None
    else Prepend(t[0], ParseStringBody(t[1..]))
  }

  function Prepend(c: char, r: Option<(string, string)>): (p: Option<(string, string)>)
    ensures p.Some? <==> r.Some?
    ensures p.Some? ==> p.value.1 == r.value.1 && p.value.0 == [c] + r.value.0
  {
    match r
    case None => None
    case Some((s, rest)) => Some(([c] + s, rest))
  }

  /** Reads a string literal. */
  function ParseString(t: string): (r: Option<(string, string)>)
    ensures r.Some? ==> |r.value.1| < |t|
  {
    if t == [] || t[0] != '"' then None else ParseStringBody(t[1..])
  }

  /** The escape of one character reads back as that character. */
  lemma ParseEscapedChar(c: char, tail: string)
    ensures ParseStringBody(EscapeChar(c) + tail) == Prepend(c, ParseStringBody(tail))
  {
    if c == '"' || c == '\\' || c == '\n' || c == '\r' || c == FormFeed || c == '\t' {
      ParseShortEscape(c, EscapeChar(c)[1], tail);
    } else if c < ' ' {
      ParseUnicodeEscape(c, tail);
    } else {
      assert (EscapeChar(c) + tail)[1..] == tail;
    }
  }

  /** A two-character escape `\e` of `c`. */
  lemma ParseShortEscape(c: char, e: char, tail: string)
    requires c == '"' || c == '\\' || c == '\n' || c == '\r' || c == FormFeed || c == '\t'
    requires EscapeChar(c) == ['\\', e]
    ensures ParseStringBody(EscapeChar(c) + tail) == Prepend(c, ParseStringBody(tail))
  {
    var t := ['\\', e] + tail;
    assert t[0] == '\\' && t[1] == e && t[2..] == tail;
  }

  /** The six-character escape `\u00XX` of a control character. */
  lemma ParseUnicodeEscape(c: char, tail: string)
    requires c < ' ' && c != '\n' && c != '\r' && c != FormFeed && c != '\t'
    ensures ParseStringBody(EscapeChar(c) + tail) == Prepend(c, ParseStringBody(tail))
  {
    var hi, lo := c as int / 16, c as int % 16;
    HexRoundTrip(hi);
    HexRoundTrip(lo);
    var t := ['\\', 'u', '0', '0', HexDigit(hi), HexDigit(lo)] + tail;
    assert EscapeChar(c) + tail == t;
    assert t[6..] == tail;
    assert t[2] == '0' && t[3] == '0' && t[4] == HexDigit(hi) && t[5] == HexDigit(lo);
    assert ((0 * 16 + 0) * 16 + hi) * 16 + lo == c as int;
  }

  lemma {:induction false} ParseEscaped(s: string, rest: string)
    ensures ParseStringBody(Escape(s) + ['"'] + rest) == Some((s, rest))
    decreases |s|
  {
    if s == [] {
      assert Escape(s) + ['"'] + rest == ['"'] + rest;
    } else {
      ParseEscaped(s[1..], rest);
      var tail := Escape(s[1..]) + ['"'] + rest;
      assert Escape(s) + ['"'] + rest == EscapeChar(s[0]) + tail;
      ParseEscapedChar(s[0], tail);
      assert [s[0]] + s[1..] == s;
    }
  }

  /** A quoted string reads back as itself, and nothing after it is consumed. */
  lemma QuoteRoundTrip(s: string, rest: string)
    ensures ParseString(Quote(s) + rest) == Some((s, rest))
  {
    ParseEscaped(s, rest);
    assert (Quote(s) + rest)[1..] == Escape(s) + ['"'] + rest;
  }

  /** An object member whose value is a string: `"key":"value"`. */
  datatype Member = Member(key: string, value: string)

  function MemberText(m: Member): string {
    Quote(m.key) + [':'] + Quote(m.value)
  }

  /** The members separated by commas: a comma between two members and nowhere else. */
  function Members(ms: seq<Member>): string {
    if ms == [] then []
    else if |ms| == 1 then MemberText(ms[0])
    else MemberText(ms[0]) + [','] + Members(ms[1..])
  }

  function ObjectText(ms: seq<Member>): string {
    ['{'] + Members(ms) + ['}']
  }

  function ParseMember(t: string): (r: Option<(Member, string)>)
    ensures r.Some? ==> |r.value.1| < |t|
  {
    match ParseString(t)
    case None => None
    case Some((k, r1)) =>
      if r1 == [] || r1[0] != ':' then None
      else
        match ParseString(r1[1..])
        case None => None
        case Some((v, r2)) => Some((Member(k, v), r2))
  }

  /** Reads members up to and including the closing brace. */
  function ParseMembers(t: string): Option<(seq<Member>, string)>
    decreases |t|
  {
    match ParseMember(t)
    case None => None
    case Some((m, r)) =>
      if r != [] && r[0] == '}' then Some(([m], r[1..]))
      else if r != [] && r[0] == ',' then
        match ParseMembers(r[1..])
        case None => None
        case Some((ms, r2)) => Some(([m] + ms, r2))
      else None
  }

  /** Reads an object whose members all have string values. */
  function ParseObject(t: string): Option<(seq<Member>, string)> {
    if t == [] || t[0] != '{' then None
    else if |t| >= 2 && t[1] == '}' then Some(([], t[2..]))
    else ParseMembers(t[1..])
  }

  lemma MemberRoundTrip(m: Member, rest: string)
    ensures ParseMember(MemberText(m) + rest) == Some((m, rest))
  {
    var qk, qv := Quote(m.key), Quote(m.value);
    var r1 := [':'] + qv + rest;
    MemberSplit(qk, qv, rest);
    QuoteRoundTrip(m.key, r1);
    QuoteRoundTrip(m.value, rest);
  }

  lemma MemberSplit(qk: string, qv: string, rest: string)
    ensures qk + [':'] + qv + rest == qk + ([':'] + qv + rest)
    ensures ([':'] + qv + rest)[1..] == qv + rest
  {
  }

  lemma ParseMembersLast(t: string, m: Member, r: string)
    requires ParseMember(t) == Some((m, ['}'] + r))
    ensures ParseMembers(t) == Some(([m], r))
  {
    assert (['}'] + r)[1..] == r;
  }

  lemma ParseMembersNext(t: string, m: Member, r: string, ms: seq<Member>, rest: string)
    requires ParseMember(t) == Some((m, [','] + r))
    requires ParseMembers(r) == Some((ms, rest))
    ensures ParseMembers(t) == Some(([m] + ms, rest))
  {
    assert ([','] + r)[1..] == r;
  }

  lemma SingleMemberRoundTrip(m: Member, rest: string)
    ensures ParseMembers(Members([m]) + ['}'] + rest) == Some(([m], rest))
  {
    var t := Members([m]) + ['}'] + rest;
    assert t == MemberText(m) + (['}'] + rest);
    MemberRoundTrip(m, ['}'] + rest);
    ParseMembersLast(t, m, rest);
  }

  lemma RegroupMembersTail(a: string, b: string, c: string)
    ensures (a + [','] + b) + ['}'] + c == a + ([','] + (b + ['}'] + c))
  {
  }

  lemma ConsMemberRoundTrip(ms: seq<Member>, rest: string, tail: string)
    requires |ms| >= 2
    requires tail == Members(ms[1..]) + ['}'] + rest
    requires ParseMembers(tail) == Some((ms[1..], rest))
    ensures ParseMembers(Members(ms) + ['}'] + rest) == Some((ms, rest))
  {
    var a, b := MemberText(ms[0]), Members(ms[1..]);
    var t := Members(ms) + ['}'] + rest;
    assert Members(ms) == a + [','] + b;
    RegroupMembersTail(a, b, rest);
    assert t == a + ([','] + tail);
    MemberRoundTrip(ms[0], [','] + tail);
    ParseMembersNext(t, ms[0], tail, ms[1..], rest);
    assert [ms[0]] + ms[1..] == ms;
  }

  lemma {:induction false} MembersRoundTrip(ms: seq<Member>, rest: string)
    requires ms != []
    ensures ParseMembers(Members(ms) + ['}'] + rest) == Some((ms, rest))
    decreases |ms|
  {
    if |ms| == 1 {
      assert ms == [ms[0]];
      SingleMemberRoundTrip(ms[0], rest);
    } else {
      MembersRoundTrip(ms[1..], rest);
      ConsMemberRoundTrip(ms, rest, Members(ms[1..]) + ['}'] + rest);
    }
  }

  /** An object written by ObjectText reads back as its members, in order, and nothing after
      the closing brace is consumed. */
  lemma ObjectRoundTrip(ms: seq<Member>, rest: string)
    ensures ParseObject(ObjectText(ms) + rest) == Some((ms, rest))
  {
    if ms == [] {
      assert ObjectText(ms) + rest == ['{', '}'] + rest;
    } else {
      MembersStartWithQuote(ms);
      ObjectSplit(Members(ms), rest);
      MembersRoundTrip(ms, rest);
    }
  }

  lemma MembersStartWithQuote(ms: seq<Member>)
    requires ms != []
    ensures |Members(ms)| > 0 && Members(ms)[0] == '"'
  {
    if |ms| >= 2 {
      MembersCons(ms);
    }
  }

  lemma ObjectSplit(body: string, rest: string)
    requires |body| > 0 && body[0] == '"'
    ensures var t := ['{'] + body + ['}'] + rest;
      |t| >= 2 && t[0] == '{' && t[1] == '"' && t[1..] == body + ['}'] + rest
  {
  }

  /** The join of two or more members: the first, a comma, and the join of the rest. */
  lemma MembersCons(ms: seq<Member>)
    requires |ms| >= 2
    ensures Members(ms) == MemberText(ms[0]) + [','] + Members(ms[1..])
  {
  }

  lemma JoinReassociate(x: string, y: string, z: string)
    ensures x + [','] + (y + [','] + z) == (x + [','] + y) + [','] + z
  {
  }

  /** Appending a member adds a comma only when there was a member before it. */
  lemma {:induction false} MembersSnoc(ms: seq<Member>, m: Member)
    ensures Members(ms + [m]) == Members(ms) + (if ms == [] then [] else [',']) + MemberText(m)
    decreases |ms|
  {
    var s := ms + [m];
    if ms == [] {
      assert s == [m];
    } else {
      assert s[0] == ms[0] && s[1..] == ms[1..] + [m];
      MembersCons(s);
      if |ms| == 1 {
        assert s[1..] == [m];
      } else {
        MembersSnoc(ms[1..], m);
        MembersCons(ms);
        JoinReassociate(MemberText(ms[0]), Members(ms[1..]), MemberText(m));
      }
    }
  }

  /** Joining two non-empty lists puts exactly one comma between them. */
  lemma {:induction false} MembersAppend(a: seq<Member>, b: seq<Member>)
    requires a != [] && b != []
    ensures Members(a + b) == Members(a) + [','] + Members(b)
    decreases |a|
  {
    var ab := a + b;
    assert ab[0] == a[0] && ab[1..] == a[1..] + b;
    MembersCons(ab);
    if |a| == 1 {
      assert ab[1..] == b;
    } else {
      MembersAppend(a[1..], b);
      MembersCons(a);
      JoinReassociate(MemberText(a[0]), Members(a[1..]), Members(b));
    }
  }

  /** Joined members end with the closing quote of the last value, never with a comma. */
  lemma {:induction false} MembersEndWithQuote(ms: seq<Member>)
    requires ms != []
    ensures |Members(ms)| > 0 && Members(ms)[|Members(ms)| - 1] == '"'
    decreases |ms|
  {
    if |ms| > 1 {
      MembersEndWithQuote(ms[1..]);
    }
  }

  /** The character before an object's closing brace is never a comma. */
  lemma NoCommaBeforeClosingBrace(ms: seq<Member>)
    ensures var t := ObjectText(ms); |t| >= 2 && t[|t| - 1] == '}' && t[|t| - 2] != ','
  {
    if ms != [] {
      MembersEndWithQuote(ms);
    }
    BraceAfterBody(Members(ms));
  }

  lemma BraceAfterBody(body: string)
    requires body == [] || body[|body| - 1] == '"'
    ensures var t := ['{'] + body + ['}']; |t| >= 2 && t[|t| - 1] == '}' && t[|t| - 2] != ','
  {
  }
}
