/**
  The `%q` verb of `fmt` applied to a byte slice, as the malformed-event
  rendering uses it: a double-quoted Go string literal.  Printable ASCII is
  kept except `"` and `\`, which get a backslash; the seven control bytes with
  a letter escape use it (`\a \b \f \n \r \t \v`); every other byte is written
  `\xNN` in lower-case hex.  Bytes from 0x80 up are always written `\xNN`
  here (see README).  `Unquote` reads such a literal back.
 */
module Quoting {
  import opened Wrappers
  import opened Bytes

  predicate Printable(b: Byte)
  {
    ' ' <= b <= '~'
  }

  /** A byte `%q` copies unchanged. */
  predicate Plain(b: Byte)
  {
    Printable(b) && b != '"' && b != '\\'
  }

  predicate AllPlain(s: Bytes)
  {
    forall i :: 0 <= i < |s| ==> Plain(s[i])
  }

  predicate AllPrintable(s: Bytes)
  {
    forall i :: 0 <= i < |s| ==> Printable(s[i])
  }

  /** The letter that follows a backslash for `b`, if `b` has one. */
  function EscapeLetter(b: Byte): Option<Byte>
  {
    if b == '"' || b == '\\' then Some(b)
    else if b == 7 as char then Some('a')
    else if b == 8 as char then Some('b')
    else if b == 12 as char then Some('f')
    else if b == 10 as char then Some('n')
    else if b == 13 as char then Some('r')
    else if b == 9 as char then Some('t')
    else if b == 11 as char then Some('v')
    else None
  }

  /** The byte a backslash-letter escape stands for. */
  function EscapedByte(l: Byte): (b: Option<Byte>)
    ensures b.Some? ==> EscapeLetter(b.value) == Some(l)
  {
    if l == '"' || l == '\\' then Some(l)
    else if l == 'a' then Some(7 as char)
    else if l == 'b' then Some(8 as char)
    else if l == 'f' then Some(12 as char)
    else if l == 'n' then Some(10 as char)
    else if l == 'r' then Some(13 as char)
    else if l == 't' then Some(9 as char)
    else if l == 'v' then Some(11 as char)
    else None
  }

  function Hex(d: nat): (c: Byte)
    requires d < 16
    ensures HexValue(c) == Some(d)
  {
    if d < 10 then ('0' as int + d) as char else ('a' as int + d - 10) as char
  }

  function HexValue(c: Byte): Option<nat>
  {
    if '0' <= c <= '9' then Some(c as int - '0' as int)
    else if 'a' <= c <= 'f' then Some(c as int - 'a' as int + 10)
    else None
  }

  /** How `%q` writes one byte. */
  function Escape(b: Byte): (e: Bytes)
    ensures 1 <= |e| <= 4 && AllPrintable(e)
    ensures Plain(b) <==> e == [b]
  {
    if Plain(b) then [b]
    else if EscapeLetter(b).Some? then ['\\', EscapeLetter(b).value]
    else ['\\', 'x', Hex(b as int / 16 % 16), Hex(b as int % 16)]
  }

  function EscapeAll(raw: Bytes): (e: Bytes)
    ensures |e| >= |raw|
  {
    if raw == [] then [] else Escape(raw[0]) + EscapeAll(raw[1..])
  }

  /** `fmt.Sprintf("%q", raw)`. */
  function Quote(raw: Bytes): (q: Bytes)
    ensures |q| >= 2 && q[0] == '"' && q[|q| - 1] == '"'
    ensures |q| >= |raw| + 2
  {
    ['"'] + EscapeAll(raw) + ['"']
  }

  function Cons(b: Byte, rest: Option<Bytes>): Option<Bytes>
  {
    if rest.Some? then Some([b] + rest.value) else None
  }

  /** Reads the inside of a quoted literal back into bytes; None if ill-formed. */
  function Unescape(s: Bytes): Option<Bytes>
    decreases |s|
  {
    if |s| == 0 then Some([])
    else if s[0] != '\\' then
      if Plain(s[0]) then Cons(s[0], Unescape(s[1..])) else None
    else if |s| < 2 then None
    else if s[1] == 'x' then
      if |s| >= 4 && HexValue(s[2]).Some? && HexValue(s[3]).Some? then
        Cons((HexValue(s[2]).value * 16 + HexValue(s[3]).value) as char, Unescape(s[4..]))
      else None
    else if EscapedByte(s[1]).Some? then Cons(EscapedByte(s[1]).value, Unescape(s[2..]))
    else None
  }

  /** Reads a `%q` literal back; None if it is not one. */
  function Unquote(q: Bytes): Option<Bytes>
  {
    if |q| >= 2 && q[0] == '"' && q[|q| - 1] == '"' then Unescape(q[1..|q| - 1]) else None
  }

  /** Unescaping undoes the escape of one byte, whatever follows it. */
  lemma UnescapeEscape(b: Byte, t: Bytes)
    requires IsByte(b)
    ensures Unescape(Escape(b) + t) == Cons(b, Unescape(t))
  {
    var e := Escape(b);
    var s := e + t;
    if Plain(b) {
      assert s[1..] == t;
    } else if EscapeLetter(b).Some? {
      assert s[2..] == t;
    } else {
      assert s[4..] == t;
      assert (b as int / 16 % 16) * 16 + b as int % 16 == b as int;
    }
  }

  /** `Unquote` inverts `Quote`: the rendering determines the raw bytes. */
  lemma {:induction false} UnquoteQuote(raw: Bytes)
    requires AllBytes(raw)
    ensures Unquote(Quote(raw)) == Some(raw)
  {
    var q := Quote(raw);
    assert q[1..|q| - 1] == EscapeAll(raw);
    UnescapeAll(raw);
  }

  lemma {:induction false} UnescapeAll(raw: Bytes)
    requires AllBytes(raw)
    ensures Unescape(EscapeAll(raw)) == Some(raw)
  {
    if raw != [] {
      UnescapeAll(raw[1..]);
      UnescapeEscape(raw[0], EscapeAll(raw[1..]));
      assert [raw[0]] + raw[1..] == raw;
    }
  }

  /** Bytes that need no escape appear in the rendering verbatim, between quotes. */
  lemma {:induction false} QuotePlain(raw: Bytes)
    requires AllPlain(raw)
    ensures Quote(raw) == ['"'] + raw + ['"']
  {
    EscapeAllPlain(raw);
  }

  lemma {:induction false} EscapeAllPlain(raw: Bytes)
    requires AllPlain(raw)
    ensures EscapeAll(raw) == raw
  {
    if raw != [] {
      EscapeAllPlain(raw[1..]);
      assert [raw[0]] + raw[1..] == raw;
    }
  }

  /** The rendering is printable ASCII: no control or high byte is copied raw. */
  lemma {:induction false} QuotePrintable(raw: Bytes)
    ensures AllPrintable(Quote(raw))
  {
    EscapeAllPrintable(raw);
  }

  lemma {:induction false} EscapeAllPrintable(raw: Bytes)
    ensures AllPrintable(EscapeAll(raw))
  {
    if raw != [] {
      EscapeAllPrintable(raw[1..]);
    }
  }
}
