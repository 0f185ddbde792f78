/**
 * Python's `repr` of a string and of a list, which the converter uses to write a table's
 * headers and rows and a list's items into the generated file (an f-string `{value}` on a
 * Python list calls `repr` on it and, through it, on each string).
 *
 * `repr(s)` picks its quote: `'`, unless `s` holds a `'` and no `"`, then `"`. Inside, a
 * backslash and the chosen quote are escaped with a backslash, tab, newline and carriage
 * return become `\t`, `\n`, `\r`, and the other non-printable characters below U+0100
 * become `\xNN`.
 * A list becomes `[`, the reprs of its members separated by `, `, and `]`.
 */
module PyRepr {

  import opened Wrappers

  /** The quote `repr` writes around `s`. */
  function QuoteFor(s: string): (q: char)
    ensures q == '"' <==> ('\'' in s && '"' !in s)
    ensures q == '\'' || q == '"'
  {
    if '\'' in s && '"' !in s then '"' else '\''
  }

  /** The characters below U+0100 that Python does not count as printable (other than tab,
      newline and carriage return, which have their own escapes). */
  predicate NeedsHex(c: char)
  {
    var k := c as int;
    (k < 0x20 && c != '\t' && c != '\n' && c != '\r') || (0x7F <= k <= 0xA0) || k == 0xAD
  }

  /** The lower-case hexadecimal digit for `d`. */
  function HexDigit(d: int): (h: char)
    requires 0 <= d < 16
  {
    "0123456789abcdef"[d]
  }

  /** The value of a lower-case hexadecimal digit. */
  function HexValue(h: char): (r: Option<int>)
    ensures r.Some? ==> 0 <= r.value < 16
    ensures forall d :: 0 <= d < 16 && h == HexDigit(d) ==> r == Some(d)
  {
    if '0' <= h <= '9' then Some(h as int - '0' as int)
    else if 'a' <= h <= 'f' then Some(h as int - 'a' as int + 10)
    else None
  }

  /** How `repr` writes the character `c` inside a literal quoted with `q`. */
  function EscapeChar(c: char, q: char): (r: string)
    requires q == '\'' || q == '"'
    ensures '\n' !in r
    ensures 1 <= |r| <= 4
  {
    if c == q || c == '\\' then ['\\', c]
    else if c == '\t' then "\\t"
    else if c == '\n' then "\\n"
    else if c == '\r' then "\\r"
    else if NeedsHex(c) then ['\\', 'x', HexDigit(c as int / 16), HexDigit(c as int % 16)]
    else [c]
  }

  /** The characters of `s`, each escaped for a literal quoted with `q`. */
  function EscapeAll(s: string, q: char): (r: string)
    requires q == '\'' || q == '"'
    ensures '\n' !in r
    ensures |s| <= |r|
  {
    if s == [] then [] else EscapeChar(s[0], q) + EscapeAll(s[1..], q)
  }

  /** `repr(s)`. */
  function Repr(s: string): (r: string)
  {
    var q := QuoteFor(s);
    [q] + EscapeAll(s, q) + [q]
  }

  /** The reprs of `xs`, separated by `, `. */
  function JoinReprs(xs: seq<string>): (r: string)
    ensures '\n' !in r
  {
    if xs == [] then ""
    else if |xs| == 1 then Repr(xs[0])
    else Repr(xs[0]) + ", " + JoinReprs(xs[1..])
  }

  /** `repr(xs)` for a list of strings. */
  function ListRepr(xs: seq<string>): (r: string)
    ensures '\n' !in r
    ensures |r| >= 2 && r[0] == '[' && r[|r| - 1] == ']'
  {
    "[" + JoinReprs(xs) + "]"
  }

  /** The list reprs of `xss`, separated by `, `. */
  function JoinListReprs(xss: seq<seq<string>>): (r: string)
    ensures '\n' !in r
  {
    if xss == [] then ""
    else if |xss| == 1 then ListRepr(xss[0])
    else ListRepr(xss[0]) + ", " + JoinListReprs(xss[1..])
  }

  /** `repr(xss)` for a list of lists of strings. */
  function NestedListRepr(xss: seq<seq<string>>): (r: string)
    ensures '\n' !in r
    ensures |r| >= 2 && r[0] == '[' && r[|r| - 1] == ']'
  {
    "[" + JoinListReprs(xss) + "]"
  }

  // ---------------------------------------------------------------------------------------
  // Reading a string literal back
  // ---------------------------------------------------------------------------------------

  /** The characters that the escapes in `b` stand for (the inside of a Python string
      literal), or None when `b` holds an escape `repr` never writes. */
  function Unescape(b: string): (r: Option<string>)
    decreases |b|
  {
    if b == [] then Some([])
    else if b[0] != '\\' then Prepend(b[0], Unescape(b[1..]))
    else if |b| < 2 then None
    else if b[1] == '\\' || b[1] == '\'' || b[1] == '"' then Prepend(b[1], Unescape(b[2..]))
    else if b[1] == 't' then Prepend('\t', Unescape(b[2..]))
    else if b[1] == 'n' then Prepend('\n', Unescape(b[2..]))
    else if b[1] == 'r' then Prepend('\r', Unescape(b[2..]))
    else if b[1] == 'x' && |b| >= 4 && HexValue(b[2]).Some? && HexValue(b[3]).Some? then
      Prepend((16 * HexValue(b[2]).value + HexValue(b[3]).value) as char, Unescape(b[4..]))
    else None
  }

  function Prepend(c: char, r: Option<string>): Option<string>
  {
    match r
    case Some(t) => Some([c] + t)
    case None => None
  }

  /** The string a Python string literal `r` denotes, or None when `r` is not a literal of
      the form `repr` writes. */
  function Unrepr(r: string): (s: Option<string>)
  {
    if |r| >= 2 && (r[0] == '\'' || r[0] == '"') && r[|r| - 1] == r[0] then Unescape(r[1..|r| - 1])
    else None
  }

  lemma UnescapeEscapeChar(c: char, q: char, rest: string)
    requires q == '\'' || q == '"'
    ensures Unescape(EscapeChar(c, q) + rest) == Prepend(c, Unescape(rest))
  {
    var e := EscapeChar(c, q);
    var b := e + rest;
    if c == q || c == '\\' {
      assert b[0] == '\\' && b[1] == c && b[2..] == rest;
    } else if c == '\t' || c == '\n' || c == '\r' {
      assert b[0] == '\\' && b[2..] == rest;
    } else if NeedsHex(c) {
      var k := c as int;
      assert k < 256;
      assert b[0] == '\\' && b[1] == 'x' && b[2] == HexDigit(k / 16) && b[3] == HexDigit(k % 16);
      assert b[4..] == rest;
      assert (16 * (k / 16) + k % 16) as char == c;
    } else {
      assert b[0] == c && b[1..] == rest;
    }
  }

  lemma {:induction false} UnescapeEscapeAll(s: string, q: char)
    requires q == '\'' || q == '"'
    ensures Unescape(EscapeAll(s, q)) == Some(s)
  {
    if s != [] {
      UnescapeEscapeAll(s[1..], q);
      UnescapeEscapeChar(s[0], q, EscapeAll(s[1..], q));
      assert [s[0]] + s[1..] == s;
    }
  }

  /** Reading back what `repr` wrote gives the original string: `repr` loses nothing. */
  lemma {:induction false} UnreprRepr(s: string)
    ensures Unrepr(Repr(s)) == Some(s)
  {
    var q := QuoteFor(s);
    var r := Repr(s);
    assert r[1..|r| - 1] == EscapeAll(s, q);
    UnescapeEscapeAll(s, q);
  }

  /** Two strings with the same repr are the same string. */
  lemma ReprInjective(s: string, t: string)
    requires Repr(s) == Repr(t)
    ensures s == t
  {
    UnreprRepr(s);
    UnreprRepr(t);
  }
}
