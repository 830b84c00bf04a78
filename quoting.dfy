/** Go's strconv.Quote (the `%q` verb of the fmt package) for the characters
    of the ASCII range: the text is wrapped in double quotes, the quote and
    the backslash are escaped, the control characters with a one-letter
    escape get it, and every other control character becomes `\x` followed by
    two lower-case hexadecimal digits. */
module Quoting {

  datatype Option<T> = None | Some(value: T)

  /** ASCII control characters: below space, and DEL. */
  predicate IsControl(c: char) {
    c as int < 0x20 || c as int == 0x7F
  }

  /** The letter of the one-letter escape for a control character, if it has one. */
  function EscapeLetter(c: char): Option<char> {
    match c as int
    case 0x07 => Some('a')
    case 0x08 => Some('b')
    case 0x09 => Some('t')
    case 0x0A => Some('n')
    case 0x0B => Some('v')
    case 0x0C => Some('f')
    case 0x0D => Some('r')
    case _ => None
  }

  /** The control character a one-letter escape stands for. */
  function LetterCode(letter: char): Option<char> {
    match letter
    case 'a' => Some(0x07 as char)
    case 'b' => Some(0x08 as char)
    case 't' => Some(0x09 as char)
    case 'n' => Some(0x0A as char)
    case 'v' => Some(0x0B as char)
    case 'f' => Some(0x0C as char)
    case 'r' => Some(0x0D as char)
    case _ => None
  }

  function HexDigit(d: nat): (c: char)
    requires d < 16
  {
    if d < 10 then ('0' as int + d) as char else ('a' as int + d - 10) as char
  }

  function HexValue(c: char): (r: Option<nat>)
    ensures r.Some? ==> r.value < 16
  {
    if '0' <= c <= '9' then Some(c as int - '0' as int)
    else if 'a' <= c <= 'f' then Some(c as int - 'a' as int + 10)
    else if 'A' <= c <= 'F' then Some(c as int - 'A' as int + 10)
    else None
  }

  /** How one character is written inside the quotes. */
  function EscapeChar(c: char): (r: string)
    ensures r != []
    ensures forall i :: 0 <= i < |r| ==> !IsControl(r[i])
  {
    if c == '"' || c == '\\' then ['\\', c]
    else if !IsControl(c) then [c]
    else if EscapeLetter(c).Some? then ['\\', EscapeLetter(c).value]
    else ['\\', 'x', HexDigit(c as int / 16), HexDigit(c as int % 16)]
  }

  /** The text between the quotes: each character escaped in turn. */
  function Escape(s: string): (r: string)
    ensures |r| >= |s|
    ensures forall i :: 0 <= i < |r| ==> !IsControl(r[i])
  {
    if s == [] then [] else EscapeChar(s[0]) + Escape(s[1..])
  }

  /** The quoted form of `s`: no ASCII control character survives in it. */
  function Quote(s: string): (r: string)
    ensures |r| >= 2 && r[0] == '"' && r[|r| - 1] == '"'
    ensures forall i :: 0 <= i < |r| ==> !IsControl(r[i])
  {
    "\"" + Escape(s) + "\""
  }

  function Cons(c: char, rest: Option<string>): Option<string> {
    if rest.Some? then Some([c] + rest.value) else None
  }

  /** Reading escaped text back, as strconv.Unquote does for these escapes. */
  function Unescape(e: string): Option<string>
    decreases |e|
  {
    if e == [] then Some([])
    else if e[0] != '\\' then Cons(e[0], Unescape(e[1..]))
    else if |e| >= 2 && (e[1] == '\\' || e[1] == '"') then Cons(e[1], Unescape(e[2..]))
    else if |e| >= 2 && LetterCode(e[1]).Some? then Cons(LetterCode(e[1]).value, Unescape(e[2..]))
    else if |e| >= 4 && e[1] == 'x' && HexValue(e[2]).Some? && HexValue(e[3]).Some? then
      Cons((16 * HexValue(e[2]).value + HexValue(e[3]).value) as char, Unescape(e[4..]))
    else None
  }

  function Unquote(q: string): Option<string> {
    if |q| >= 2 && q[0] == '"' && q[|q| - 1] == '"' then Unescape(q[1..|q| - 1]) else None
  }

  lemma HexDigitValue(d: nat)
    requires d < 16
    ensures HexValue(HexDigit(d)) == Some(d)
  {
  }

  /** Each character's escape reads back as that character. */
  lemma UnescapeChar(c: char, rest: string)
    ensures Unescape(EscapeChar(c) + rest) == Cons(c, Unescape(rest))
  {
    var e := EscapeChar(c) + rest;
    if c == '"' || c == '\\' {
      assert e[2..] == rest;
    } else if !IsControl(c) {
      assert e[1..] == rest;
    } else if EscapeLetter(c).Some? {
      assert e[2..] == rest;
      assert LetterCode(EscapeLetter(c).value) == Some(c);
    } else {
      var n := c as int;
      HexDigitValue(n / 16);
      HexDigitValue(n % 16);
      assert e[1] == 'x' && e[2] == HexDigit(n / 16) && e[3] == HexDigit(n % 16);
      assert e[4..] == rest;
      assert (16 * (n / 16) + n % 16) as char == c;
    }
  }

  lemma {:induction false} UnescapeEscape(s: string)
    ensures Unescape(Escape(s)) == Some(s)
  {
    if s != [] {
      UnescapeChar(s[0], Escape(s[1..]));
      UnescapeEscape(s[1..]);
      assert s == [s[0]] + s[1..];
    }
  }

  /** Quoting loses nothing: the quoted text reads back as the original. */
  lemma QuoteRoundTrip(s: string)
    ensures Unquote(Quote(s)) == Some(s)
  {
    var q := Quote(s);
    assert q[1..|q| - 1] == Escape(s);
    UnescapeEscape(s);
  }
}
