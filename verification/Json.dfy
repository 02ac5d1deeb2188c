/** `json.dumps` and `json.loads` of a flat object of strings, with the
    escapes of section 7 of RFC 8259 as Python writes them: everything that is
    not printable ASCII is escaped, beyond U+FFFF as a surrogate pair. */
module Json {
  import opened Wrappers

  /** A dict of strings in insertion order. */
  type Headers = seq<(string, string)>

  ghost predicate IsDict(h: Headers) {
    forall i, j :: 0 <= i < j < |h| ==> h[i].0 != h[j].0
  }

  // ---- Printing ----

  function HexDigit(d: nat): char
    requires d < 16
  {
    if d < 10 then ('0' as int + d) as char else ('a' as int + d - 10) as char
  }

  function Hex4(n: nat): string
    requires n < 0x10000
  {
    [HexDigit(n / 4096), HexDigit(n / 256 % 16), HexDigit(n / 16 % 16), HexDigit(n % 16)]
  }

  /** The letter after the backslash of a two-character escape. */
  function ShortEscape(c: char): Option<char> {
    if c == '\"' || c == '\\' then Some(c)
    else if c == '\n' then Some('n')
    else if c == '\r' then Some('r')
    else if c == '\t' then Some('t')
    else if c == '\U{0c}' then Some('f')
    else if c == '\U{08}' then Some('b')
    else None
  }

  /** What follows the `u` of the other escapes. */
  function UnicodeEscape(n: int): string
    requires 0 <= n < 0x110000
  {
    if n < 0x10000 then Hex4(n)
    else Hex4(0xD800 + (n - 0x10000) / 1024) + ("\\u" + Hex4(0xDC00 + (n - 0x10000) % 1024))
  }

  /** An escaped character, after its backslash. */
  function EscapeTail(c: char): string {
    match ShortEscape(c)
    case Some(letter) => [letter]
    case None => "u" + UnicodeEscape(c as int)
  }

  predicate IsPlain(c: char) {
    ' ' <= c <= '~' && c != '\"' && c != '\\'
  }

  function Escape(s: string): string {
    if s == [] then []
    else if IsPlain(s[0]) then [s[0]] + Escape(s[1..])
    else "\\" + EscapeTail(s[0]) + Escape(s[1..])
  }

  function Quote(s: string): string {
    "\"" + Escape(s) + "\""
  }

  function Member(m: (string, string)): string {
    Quote(m.0) + ": " + Quote(m.1)
  }

  function Members(h: Headers): string
    requires h != []
  {
    if |h| == 1 then Member(h[0]) else Member(h[0]) + (", " + Members(h[1..]))
  }

  function Dumps(h: Headers): (t: string)
    ensures t != [] && t[0] == '{'
  {
    if h == [] then "{}" else "{" + Members(h) + "}"
  }

  // ---- Parsing ----

  function HexValue(c: char): Option<nat> {
    if '0' <= c <= '9' then Some(c as int - '0' as int)
    else if 'a' <= c <= 'f' then Some(c as int - 'a' as int + 10)
    else if 'A' <= c <= 'F' then Some(c as int - 'A' as int + 10)
    else None
  }

  function ReadHex4(t: string): (r: Option<nat>)
    ensures r.Some? ==> |t| >= 4
  {
    if |t| < 4 then None
    else
      match (HexValue(t[0]), HexValue(t[1]), HexValue(t[2]), HexValue(t[3]))
      case (Some(a), Some(b), Some(c), Some(d)) => Some(4096 * a + 256 * b + 16 * c + d)
      case _ => None
  }

  datatype Read<T> = Read(value: T, rest: string)

  /** The second half of a surrogate pair. */
  function ReadLow(high: nat, t: string): (r: Option<Read<char>>)
    ensures r.Some? ==> |r.value.rest| < |t|
  {
    if |t| < 6 || t[0] != '\\' || t[1] != 'u' then None
    else
      match ReadHex4(t[2..])
      case None => None
      case Some(low) =>
        if 0xD800 <= high < 0xDC00 && 0xDC00 <= low < 0xE000
        then Some(Read((0x10000 + (high - 0xD800) * 1024 + (low - 0xDC00)) as char, t[6..]))
        else None
  }

  function ReadUnicode(t: string): (r: Option<Read<char>>)
    ensures r.Some? ==> |r.value.rest| < |t|
  {
    match ReadHex4(t)
    case None => None
    case Some(n) =>
      if n < 0xD800 || 0xE000 <= n < 0x10000 then Some(Read(n as char, t[4..]))
      else if n < 0xDC00 then ReadLow(n, t[4..])
      else None
  }

  function ReadShort(c: char): Option<char> {
    if c == '\"' || c == '\\' || c == '/' then Some(c)
    else if c == 'n' then Some('\n')
    else if c == 'r' then Some('\r')
    else if c == 't' then Some('\t')
    else if c == 'f' then Some('\U{0c}')
    else if c == 'b' then Some('\U{08}')
    else None
  }

  /** What follows a backslash. */
  function ReadEscape(t: string): (r: Option<Read<char>>)
    ensures r.Some? ==> |r.value.rest| < |t|
  {
    if t == [] then None
    else if t[0] == 'u' then ReadUnicode(t[1..])
    else
      match ReadShort(t[0])
      case None => None
      case Some(c) => Some(Read(c, t[1..]))
  }

  /** The characters up to the closing quote, and what follows it. */
  function ReadString(t: string): (r: Option<Read<string>>)
    ensures r.Some? ==> |r.value.rest| < |t|
    decreases |t|
  {
    if t == [] then None
    else if t[0] == '\"' then Some(Read([], t[1..]))
    else if t[0] == '\\' then
      match ReadEscape(t[1..])
      case None => None
      case Some(Read(c, rest)) =>
        match ReadString(rest)
        case None => None
        case Some(Read(s, after)) => Some(Read([c] + s, after))
    else if t[0] < ' ' then None
    else
      match ReadString(t[1..])
      case None => None
      case Some(Read(s, after)) => Some(Read([t[0]] + s, after))
  }

  function SkipSpace(t: string): (r: string)
    ensures |r| <= |t|
  {
    if t != [] && (t[0] == ' ' || t[0] == '\n' || t[0] == '\r' || t[0] == '\t') then SkipSpace(t[1..]) else t
  }

  /** A quoted string after optional space. */
  function ReadQuoted(t: string): (r: Option<Read<string>>)
    ensures r.Some? ==> |r.value.rest| < |t|
  {
    var u := SkipSpace(t);
    if u == [] || u[0] != '\"' then None else ReadString(u[1..])
  }

  /** The colon and the value of the member `k`. */
  function ReadValue(k: string, t: string): (r: Option<Read<(string, string)>>)
    ensures r.Some? ==> |r.value.rest| < |t|
  {
    var u := SkipSpace(t);
    if u == [] || u[0] != ':' then None
    else
      match ReadQuoted(u[1..])
      case None => None
      case Some(Read(v, after)) => Some(Read((k, v), SkipSpace(after)))
  }

  function ReadMember(t: string): (r: Option<Read<(string, string)>>)
    ensures r.Some? ==> |r.value.rest| < |t|
  {
    match ReadQuoted(t)
    case None => None
    case Some(Read(k, rest)) => ReadValue(k, rest)
  }

  /** The members up to and including the closing brace. */
  function ReadMembers(t: string): (r: Option<Read<Headers>>)
    decreases |t|
  {
    match ReadMember(t)
    case None => None
    case Some(Read(m, rest)) =>
      if rest == [] then None
      else if rest[0] == '}' then Some(Read([m], rest[1..]))
      else if rest[0] == ',' then
        match ReadMembers(rest[1..])
        case None => None
        case Some(Read(ms, after)) => Some(Read([m] + ms, after))
      else None
  }

  /** Building the dict: a repeated key keeps its place and takes the last value. */
  function Put(d: Headers, k: string, v: string): Headers {
    if d == [] then [(k, v)]
    else if d[0].0 == k then [(k, v)] + d[1..]
    else [d[0]] + Put(d[1..], k, v)
  }

  function DictOf(pairs: Headers): Headers {
    if pairs == [] then []
    else Put(DictOf(pairs[..|pairs| - 1]), pairs[|pairs| - 1].0, pairs[|pairs| - 1].1)
  }

  /** `json.loads` of a flat object of strings; None is the `JSONDecodeError`. */
  function Loads(t: string): Option<Headers> {
    var u := SkipSpace(t);
    if u == [] || u[0] != '{' then None
    else
      var v := SkipSpace(u[1..]);
      if v != [] && v[0] == '}' then (if SkipSpace(v[1..]) == [] then Some([]) else None)
      else
        match ReadMembers(v)
        case None => None
        case Some(Read(pairs, after)) => if SkipSpace(after) == [] then Some(DictOf(pairs)) else None
  }

  // ---- The round trip ----

  lemma HexDigitBack(d: nat)
    requires d < 16
    ensures HexValue(HexDigit(d)) == Some(d)
  {
  }

  lemma FourDigitsBack(a: nat, b: nat, c: nat, d: nat, rest: string)
    requires a < 16 && b < 16 && c < 16 && d < 16
    ensures ReadHex4([HexDigit(a), HexDigit(b), HexDigit(c), HexDigit(d)] + rest)
         == Some(4096 * a + 256 * b + 16 * c + d)
  {
    HexDigitBack(a);
    HexDigitBack(b);
    HexDigitBack(c);
    HexDigitBack(d);
  }

  lemma BaseSixteen(n: nat)
    ensures n == 4096 * (n / 4096) + 256 * (n / 256 % 16) + 16 * (n / 16 % 16) + n % 16
  {
    assert n / 16 / 16 == n / 256 && n / 256 / 16 == n / 4096;
  }

  lemma Hex4Back(n: nat, rest: string)
    requires n < 0x10000
    ensures ReadHex4(Hex4(n) + rest) == Some(n)
  {
    FourDigitsBack(n / 4096, n / 256 % 16, n / 16 % 16, n % 16, rest);
    BaseSixteen(n);
  }

  lemma LowBack(high: nat, low: nat, rest: string)
    requires 0xD800 <= high < 0xDC00 && 0xDC00 <= low < 0xE000
    ensures ReadLow(high, "\\u" + Hex4(low) + rest)
         == Some(Read((0x10000 + (high - 0xD800) * 1024 + (low - 0xDC00)) as char, rest))
  {
    var t := "\\u" + Hex4(low) + rest;
    Hex4Back(low, rest);
    assert t[2..] == Hex4(low) + rest;
    assert t[6..] == rest;
  }

  lemma PairBack(high: nat, low: nat, rest: string)
    requires 0xD800 <= high < 0xDC00 && 0xDC00 <= low < 0xE000
    ensures ReadUnicode(Hex4(high) + ("\\u" + Hex4(low)) + rest)
         == Some(Read((0x10000 + (high - 0xD800) * 1024 + (low - 0xDC00)) as char, rest))
  {
    var tail := "\\u" + Hex4(low) + rest;
    var t := Hex4(high) + tail;
    assert Hex4(high) + ("\\u" + Hex4(low)) + rest == t;
    Hex4Back(high, tail);
    LowBack(high, low, rest);
    assert t[4..] == tail;
  }

  lemma BmpBack(n: nat, rest: string)
    requires n < 0xD800 || 0xE000 <= n < 0x10000
    ensures ReadUnicode(Hex4(n) + rest) == Some(Read(n as char, rest))
  {
    Hex4Back(n, rest);
    assert (Hex4(n) + rest)[4..] == rest;
  }

  lemma SurrogatesOf(n: int)
    requires 0x10000 <= n < 0x110000
    ensures var high, low := 0xD800 + (n - 0x10000) / 1024, 0xDC00 + (n - 0x10000) % 1024;
      && 0xD800 <= high < 0xDC00 && 0xDC00 <= low < 0xE000
      && 0x10000 + (high - 0xD800) * 1024 + (low - 0xDC00) == n
  {
  }

  lemma AstralBack(n: int, rest: string)
    requires 0x10000 <= n < 0x110000
    ensures ReadUnicode(Hex4(0xD800 + (n - 0x10000) / 1024) + ("\\u" + Hex4(0xDC00 + (n - 0x10000) % 1024)) + rest)
         == Some(Read(n as char, rest))
  {
    SurrogatesOf(n);
    PairBack(0xD800 + (n - 0x10000) / 1024, 0xDC00 + (n - 0x10000) % 1024, rest);
  }

  lemma UnicodeBack(n: int, rest: string)
    requires 0 <= n < 0xD800 || 0xE000 <= n < 0x110000
    ensures ReadUnicode(UnicodeEscape(n) + rest) == Some(Read(n as char, rest))
  {
    if n < 0x10000 {
      BmpBack(n, rest);
    } else {
      AstralBack(n, rest);
    }
  }

  lemma ShortBack(c: char)
    ensures ShortEscape(c).Some? ==> ShortEscape(c).value != 'u' && ReadShort(ShortEscape(c).value) == Some(c)
  {
  }

  lemma ShortTailBack(letter: char, c: char, rest: string)
    requires letter != 'u' && ReadShort(letter) == Some(c)
    ensures ReadEscape([letter] + rest) == Some(Read(c, rest))
  {
    assert ([letter] + rest)[1..] == rest;
  }

  lemma LongTailBack(n: int, rest: string)
    requires 0 <= n < 0xD800 || 0xE000 <= n < 0x110000
    ensures ReadEscape("u" + UnicodeEscape(n) + rest) == Some(Read(n as char, rest))
  {
    UnicodeBack(n, rest);
    var t := UnicodeEscape(n) + rest;
    assert "u" + UnicodeEscape(n) + rest == "u" + t;
    assert ("u" + t)[1..] == t;
  }

  lemma EscapeBack(c: char, rest: string)
    ensures ReadEscape(EscapeTail(c) + rest) == Some(Read(c, rest))
  {
    ShortBack(c);
    match ShortEscape(c)
    case Some(letter) => ShortTailBack(letter, c, rest);
    case None => LongTailBack(c as int, rest);
  }

  lemma PlainBack(c: char, t: string)
    requires IsPlain(c)
    ensures ReadString([c] + t) ==
      match ReadString(t) case None => None case Some(Read(s, after)) => Some(Read([c] + s, after))
  {
    assert ([c] + t)[1..] == t;
  }

  lemma EscapedBack(c: char, t: string)
    ensures ReadString("\\" + (EscapeTail(c) + t)) ==
      match ReadString(t) case None => None case Some(Read(s, after)) => Some(Read([c] + s, after))
  {
    var u := EscapeTail(c) + t;
    EscapeBack(c, t);
    assert ("\\" + u)[1..] == u;
  }

  lemma Associative(a: string, b: string, c: string)
    ensures a + b + c == a + (b + c)
  {
  }

  lemma EscapeSplits(s: string, rest: string)
    requires s != []
    ensures var tail := Escape(s[1..]) + "\"" + rest;
      Escape(s) + "\"" + rest == if IsPlain(s[0]) then [s[0]] + tail else "\\" + (EscapeTail(s[0]) + tail)
  {
    var quote := "\"" + rest;
    var front := if IsPlain(s[0]) then [s[0]] else "\\" + EscapeTail(s[0]);
    assert Escape(s) == front + Escape(s[1..]);
    Associative(Escape(s), "\"", rest);
    Associative(Escape(s[1..]), "\"", rest);
    Associative(front, Escape(s[1..]), quote);
    Associative("\\", EscapeTail(s[0]), Escape(s[1..]) + quote);
  }

  lemma {:induction false} StringBack(s: string, rest: string)
    ensures ReadString(Escape(s) + "\"" + rest) == Some(Read(s, rest))
  {
    if s == [] {
      assert ("\"" + rest)[1..] == rest;
    } else {
      var tail := Escape(s[1..]) + "\"" + rest;
      StringBack(s[1..], rest);
      assert s == [s[0]] + s[1..];
      EscapeSplits(s, rest);
      if IsPlain(s[0]) {
        PlainBack(s[0], tail);
      } else {
        EscapedBack(s[0], tail);
      }
    }
  }

  lemma QuotedBack(s: string, rest: string)
    ensures ReadQuoted(Quote(s) + rest) == Some(Read(s, rest))
  {
    StringBack(s, rest);
    var t := Quote(s) + rest;
    assert t[0] == '\"' && t[1..] == Escape(s) + "\"" + rest;
  }

  lemma SpaceIsSkipped(t: string)
    ensures ReadQuoted(" " + t) == ReadQuoted(t)
    ensures ReadMember(" " + t) == ReadMember(t)
  {
    assert (" " + t)[1..] == t;
  }

  lemma NoSpace(t: string)
    requires t != [] && t[0] !in " \n\r\t"
    ensures SkipSpace(t) == t
  {
  }

  lemma ValueBack(k: string, v: string, rest: string)
    requires rest != [] && (rest[0] == ',' || rest[0] == '}')
    ensures ReadValue(k, ": " + Quote(v) + rest) == Some(Read((k, v), rest))
  {
    var t := ": " + Quote(v) + rest;
    QuotedBack(v, rest);
    SpaceIsSkipped(Quote(v) + rest);
    NoSpace(t);
    NoSpace(rest);
    assert t[1..] == " " + (Quote(v) + rest);
  }

  lemma MemberBack(m: (string, string), rest: string)
    requires rest != [] && (rest[0] == ',' || rest[0] == '}')
    ensures ReadMember(Member(m) + rest) == Some(Read(m, rest))
  {
    var tail := ": " + Quote(m.1) + rest;
    assert Member(m) + rest == Quote(m.0) + tail;
    QuotedBack(m.0, tail);
    ValueBack(m.0, m.1, rest);
  }

  lemma LastMember(t: string, m: (string, string), rest: string)
    requires ReadMember(t) == Some(Read(m, "}" + rest))
    ensures ReadMembers(t) == Some(Read([m], rest))
  {
    assert ("}" + rest)[1..] == rest;
  }

  lemma NextMember(t: string, m: (string, string), next: string, h: Headers, rest: string)
    requires ReadMember(t) == Some(Read(m, "," + next))
    requires ReadMembers(next) == Some(Read(h, rest))
    ensures ReadMembers(t) == Some(Read([m] + h, rest))
  {
    assert ("," + next)[1..] == next;
  }

  lemma Regroup(a: string, b: string, rest: string)
    ensures a + (", " + b) + "}" + rest == a + ("," + (" " + (b + "}" + rest)))
  {
    assert ", " == "," + " ";
  }

  lemma SpaceBeforeMembers(t: string)
    ensures ReadMembers(" " + t) == ReadMembers(t)
  {
    SpaceIsSkipped(t);
  }

  lemma OneMemberBack(m: (string, string), rest: string)
    ensures ReadMembers(Members([m]) + "}" + rest) == Some(Read([m], rest))
  {
    MemberBack(m, "}" + rest);
    LastMember(Member(m) + ("}" + rest), m, rest);
    assert Members([m]) + "}" + rest == Member(m) + ("}" + rest);
  }

  lemma FirstMemberBack(m: (string, string), h: Headers, text: string, rest: string)
    requires ReadMembers(text + "}" + rest) == Some(Read(h, rest))
    ensures ReadMembers(Member(m) + (", " + text) + "}" + rest) == Some(Read([m] + h, rest))
  {
    var next := text + "}" + rest;
    var tail := "," + (" " + next);
    SpaceBeforeMembers(next);
    MemberBack(m, tail);
    NextMember(Member(m) + tail, m, " " + next, h, rest);
    Regroup(Member(m), text, rest);
  }

  lemma {:induction false} MembersBack(h: Headers, rest: string)
    requires h != []
    ensures ReadMembers(Members(h) + "}" + rest) == Some(Read(h, rest))
  {
    if |h| == 1 {
      assert h == [h[0]];
      OneMemberBack(h[0], rest);
    } else {
      MembersBack(h[1..], rest);
      FirstMemberBack(h[0], h[1..], Members(h[1..]), rest);
      assert h == [h[0]] + h[1..];
    }
  }

  lemma {:induction false} PutNew(d: Headers, k: string, v: string)
    requires forall i :: 0 <= i < |d| ==> d[i].0 != k
    ensures Put(d, k, v) == d + [(k, v)]
  {
    if d != [] {
      PutNew(d[1..], k, v);
    }
  }

  lemma {:induction false} DictOfDict(h: Headers)
    requires IsDict(h)
    ensures DictOf(h) == h
  {
    if h != [] {
      var front := h[..|h| - 1];
      DictOfDict(front);
      PutNew(front, h[|h| - 1].0, h[|h| - 1].1);
    }
  }

  lemma MembersLoad(h: Headers)
    requires h != []
    ensures Loads("{" + Members(h) + "}") == Some(DictOf(h))
  {
    var t := "{" + Members(h) + "}";
    var v := Members(h) + "}" + [];
    MembersBack(h, []);
    assert t[1..] == v;
    assert v[0] == '\"';
    NoSpace(t);
    NoSpace(v);
  }

  /** Every dict of strings comes back, in order. */
  lemma RoundTrip(h: Headers)
    requires IsDict(h)
    ensures Loads(Dumps(h)) == Some(h)
  {
    if h == [] {
      assert "{}"[1..] == "}" && "}"[1..] == [];
    } else {
      MembersLoad(h);
      DictOfDict(h);
    }
  }

  // ---- What is read besides what is written ----

  /** The value a dict has for a key. */
  function Lookup(d: Headers, k: string): Option<string> {
    if d == [] then None else if d[0].0 == k then Some(d[0].1) else Lookup(d[1..], k)
  }

  lemma {:induction false} LookupPut(d: Headers, k: string, v: string, x: string)
    ensures Lookup(Put(d, k, v), x) == if x == k then Some(v) else Lookup(d, x)
  {
    if d != [] && d[0].0 != k {
      LookupPut(d[1..], k, v, x);
      assert Put(d, k, v)[1..] == Put(d[1..], k, v);
    } else if d != [] {
      assert Put(d, k, v)[1..] == d[1..];
    }
  }

  /** The last value that a text gives for a key. */
  function LastValue(pairs: Headers, k: string): Option<string> {
    if pairs == [] then None
    else if pairs[|pairs| - 1].0 == k then Some(pairs[|pairs| - 1].1)
    else LastValue(pairs[..|pairs| - 1], k)
  }

  /** Of members with one name the last one counts. */
  lemma {:induction false} LastMemberCounts(pairs: Headers, k: string)
    ensures Lookup(DictOf(pairs), k) == LastValue(pairs, k)
  {
    if pairs != [] {
      var n := |pairs| - 1;
      LastMemberCounts(pairs[..n], k);
      LookupPut(DictOf(pairs[..n]), pairs[n].0, pairs[n].1, k);
    }
  }

  predicate IsBlank(c: char) {
    c == ' ' || c == '\n' || c == '\r' || c == '\t'
  }

  lemma {:induction false} SpaceSkipped(w: string, t: string)
    requires forall i :: 0 <= i < |w| ==> IsBlank(w[i])
    ensures SkipSpace(w + t) == SkipSpace(t)
  {
    if w == [] {
      assert w + t == t;
    } else {
      assert (w + t)[1..] == w[1..] + t;
      SpaceSkipped(w[1..], t);
    }
  }

  /** Space around a text does not matter. */
  lemma SpaceAroundDoesNotMatter(w: string, t: string)
    requires forall i :: 0 <= i < |w| ==> IsBlank(w[i])
    ensures Loads(w + t) == Loads(t)
  {
    SpaceSkipped(w, t);
  }

  /** An escaped slash is read as well, and so are upper-case digits. */
  lemma OtherEscapes(c: char, rest: string)
    requires 'a' <= c <= 'f'
    ensures ReadEscape("/" + rest) == Some(Read('/', rest))
    ensures HexValue((c as int - 32) as char) == HexValue(c)
  {
    assert ("/" + rest)[1..] == rest;
  }
}
