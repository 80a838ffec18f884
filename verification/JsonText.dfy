/** c/json.h and c/strbuf.h: string literals of JSON, their escapes, and UTF-8. Characters below
    256 stand for bytes. */
module JsonText {

  // ---------------------------------------------------------------- UTF-8

  function Char(n: nat): char
    requires n < 256
  {
    n as char
  }

  /** The low byte of 0xF0 | x. */
  function LeadFour(x: nat): char { Char(240 + x % 16) }

  /** Six bits of cp behind a continuation mark. */
  function Cont(x: nat): char { Char(128 + x % 64) }

  /** The bytes put for a code point. */
  function Utf8(cp: nat): string {
    if cp < 0x80 then [Char(cp)]
    else if cp < 0x800 then [Char(192 + cp / 64), Cont(cp)]
    else if cp < 0x10000 then [Char(224 + cp / 4096), Cont(cp / 64), Cont(cp)]
    else [LeadFour(cp / 262144), Cont(cp / 4096), Cont(cp / 64), Cont(cp)]
  }

  predicate Continues(c: char) { 128 <= c as int < 192 }

  /** A decoder written from section 3 of RFC 3629: the scalar value at the front of s, and the
      number of bytes it takes; 0 when there is none. Overlong forms, surrogates and values past
      U+10FFFF are not accepted. */
  function Scalar(s: string): (r: (nat, nat)) {
    if s == "" then (0, 0)
    else
      var b := s[0] as int;
      if b < 128 then (b, 1)
      else if 194 <= b < 224 && |s| >= 2 && Continues(s[1]) then
        ((b - 192) * 64 + (s[1] as int - 128), 2)
      else if 224 <= b < 240 && |s| >= 3 && Continues(s[1]) && Continues(s[2]) then
        var cp := (b - 224) * 4096 + (s[1] as int - 128) * 64 + (s[2] as int - 128);
        if cp < 0x800 || 0xD800 <= cp < 0xE000 then (0, 0) else (cp, 3)
      else if 240 <= b < 245 && |s| >= 4 && Continues(s[1]) && Continues(s[2]) && Continues(s[3]) then
        var cp := (b - 240) * 262144 + (s[1] as int - 128) * 4096 + (s[2] as int - 128) * 64 + (s[3] as int - 128);
        if cp < 0x10000 || cp > 0x10FFFF then (0, 0) else (cp, 4)
      else (0, 0)
  }

  predicate IsScalar(cp: nat) { cp < 0xD800 || 0xE000 <= cp <= 0x10FFFF }

  /** Every scalar value is written as RFC 3629 reads it. */
  lemma {:induction false} Utf8Reads(cp: nat, rest: string)
    requires IsScalar(cp)
    ensures Scalar(Utf8(cp) + rest) == (cp, |Utf8(cp)|)
  {
    hide Scalar;
    Sextets(cp);
    if cp < 0x80 {
      OneByte(cp, rest);
    } else if cp < 0x800 {
      TwoBytes(cp / 64, cp % 64, rest);
    } else if cp < 0x10000 {
      ThreeBytes(cp / 4096, cp / 64 % 64, cp % 64, rest);
    } else {
      FourBytes(cp / 262144, cp / 4096 % 64, cp / 64 % 64, cp % 64, rest);
    }
  }

  lemma OneByte(a: nat, rest: string)
    requires a < 128
    ensures Scalar([Char(a)] + rest) == (a, 1)
  {
  }

  lemma TwoBytes(a: nat, b: nat, rest: string)
    requires 2 <= a < 32 && b < 64
    ensures Scalar([Char(192 + a), Char(128 + b)] + rest) == (a * 64 + b, 2)
  {
  }

  lemma ThreeBytes(a: nat, b: nat, c: nat, rest: string)
    requires a < 16 && b < 64 && c < 64 && a * 4096 + b * 64 + c >= 0x800 && IsScalar(a * 4096 + b * 64 + c)
    ensures Scalar([Char(224 + a), Char(128 + b), Char(128 + c)] + rest) == (a * 4096 + b * 64 + c, 3)
  {
  }

  lemma FourBytes(a: nat, b: nat, c: nat, d: nat, rest: string)
    requires b < 64 && c < 64 && d < 64 && 0x10000 <= a * 262144 + b * 4096 + c * 64 + d <= 0x10FFFF
    ensures a < 5
    ensures Scalar([Char(240 + a), Char(128 + b), Char(128 + c), Char(128 + d)] + rest) ==
            (a * 262144 + b * 4096 + c * 64 + d, 4)
  {
  }

  lemma Sextets(cp: nat)
    ensures cp == cp / 64 * 64 + cp % 64
    ensures cp / 64 == cp / 4096 * 64 + cp / 64 % 64
    ensures cp / 4096 == cp / 262144 * 64 + cp / 4096 % 64
  {
  }

  // ---------------------------------------------------------------- hexadecimal

  /** isspace: blank, tab, newline, vertical tab, form feed, return. */
  predicate IsSpace(c: char) { c == ' ' || '\t' as int <= c as int <= '\r' as int }

  predicate IsHex(c: char) { '0' <= c <= '9' || 'a' <= c <= 'f' || 'A' <= c <= 'F' }

  function HexDigit(c: char): (d: nat)
    requires IsHex(c)
    ensures d < 16
  {
    if c <= '9' then c as int - '0' as int
    else if c <= 'F' then c as int - 'A' as int + 10
    else c as int - 'a' as int + 10
  }

  lemma Spaces(c: char)
    ensures IsSpace(c) <==> c in " \t\n\r" || c as int == 11 || c as int == 12
  {
  }

  /** A digit's value is its place in the digits, in either case. */
  lemma HexDigits(c: char)
    ensures IsHex(c) <==> c in "0123456789abcdef" || c in "0123456789ABCDEF"
    ensures IsHex(c) ==> "0123456789abcdef"[HexDigit(c)] == c || "0123456789ABCDEF"[HexDigit(c)] == c
  {
  }

  /** The digits from the front on. */
  function HexRun(s: string, acc: nat): nat {
    if s == "" || !IsHex(s[0]) then acc else HexRun(s[1..], acc * 16 + HexDigit(s[0]))
  }

  function SkipSpace(s: string): (t: string)
    ensures |t| <= |s| && (t == "" || !IsSpace(t[0]))
    ensures s != "" && !IsSpace(s[0]) ==> t == s
  {
    if s != "" && IsSpace(s[0]) then SkipSpace(s[1..]) else s
  }

  /** strtoul(s, NULL, 16) converted to unsigned int: white space, a sign, an 0x prefix, digits up
      to the first character that is none. */
  function Strtoul(s: string): nat {
    var t := SkipSpace(s);
    var neg := t != "" && t[0] == '-';
    var u := if t != "" && (t[0] == '-' || t[0] == '+') then t[1..] else t;
    var w := if |u| >= 3 && u[0] == '0' && (u[1] == 'x' || u[1] == 'X') && IsHex(u[2]) then u[2..] else u;
    var v := HexRun(w, 0) % 0x1_0000_0000;
    if neg then (0x1_0000_0000 - v) % 0x1_0000_0000 else v
  }

  predicate Hex4(h: string) { |h| == 4 && forall i :: 0 <= i < 4 ==> IsHex(h[i]) }

  function Hex4Value(h: string): (n: nat)
    requires Hex4(h)
    ensures n < 0x10000
  {
    ((HexDigit(h[0]) * 16 + HexDigit(h[1])) * 16 + HexDigit(h[2])) * 16 + HexDigit(h[3])
  }

  lemma HexRunStep(s: string, acc: nat)
    requires s != "" && IsHex(s[0])
    ensures HexRun(s, acc) == HexRun(s[1..], acc * 16 + HexDigit(s[0]))
  {
  }

  lemma HexRunFour(h: string, acc: nat)
    requires Hex4(h) && acc == 0
    ensures HexRun(h, acc) == Hex4Value(h)
  {
    hide HexRun, HexDigit;
    var a := acc * 16 + HexDigit(h[0]);
    var b := a * 16 + HexDigit(h[1]);
    var c := b * 16 + HexDigit(h[2]);
    assert h[1..][1..] == h[2..] && h[2..][1..] == h[3..] && h[3..][1..] == h[4..];
    HexRunStep(h, acc);
    HexRunStep(h[1..], a);
    HexRunStep(h[2..], b);
    HexRunStep(h[3..], c);
    HexRunDone(h[4..], c * 16 + HexDigit(h[3]));
  }

  lemma HexRunDone(s: string, acc: nat)
    requires s == ""
    ensures HexRun(s, acc) == acc
  {
  }

  lemma StrtoulHex4(h: string)
    requires Hex4(h)
    ensures Strtoul(h) == Hex4Value(h)
  {
    hide HexRun, Hex4Value;
    HexRunFour(h, 0);
  }

  predicate AllHex(d: string) { forall i :: 0 <= i < |d| ==> IsHex(d[i]) }

  /** Hexadecimal notation. */
  function HexNumber(d: string): nat
    requires AllHex(d)
  {
    if d == "" then 0 else HexNumber(d[..|d| - 1]) * 16 + HexDigit(d[|d| - 1])
  }

  lemma {:induction false} RunOnward(d: string, rest: string, acc: nat)
    requires AllHex(d) && acc == 0
    ensures HexRun(d + rest, acc) == HexRun(rest, HexNumber(d))
  {
    if d == "" {
      assert d + rest == rest;
    } else {
      var front, last := d[..|d| - 1], d[|d| - 1];
      assert d + rest == front + ([last] + rest);
      RunOnward(front, [last] + rest, acc);
      HexRunStep([last] + rest, HexNumber(front));
      assert ([last] + rest)[1..] == rest;
    }
  }

  lemma RunStops(rest: string, acc: nat)
    requires rest == "" || !IsHex(rest[0])
    ensures HexRun(rest, acc) == acc
  {
  }

  predicate AllSpace(ws: string) { forall i :: 0 <= i < |ws| ==> IsSpace(ws[i]) }

  lemma {:induction false} SkipAll(ws: string, t: string)
    requires AllSpace(ws) && (t == "" || !IsSpace(t[0]))
    ensures SkipSpace(ws + t) == t
  {
    if ws == "" {
      assert ws + t == t;
    } else {
      assert (ws + t)[1..] == ws[1..] + t;
      SkipAll(ws[1..], t);
    }
  }

  /** strtoul in base 16: white space, a sign, 0x or 0X, then digits up to the first character that is
      none; a minus sign negates modulo 2^32. */
  lemma StrtoulReads(ws: string, sign: string, prefix: string, d: string, rest: string)
    requires AllSpace(ws) && sign in {"", "+", "-"} && prefix in {"", "0x", "0X"}
    requires d != "" && AllHex(d) && (rest == "" || !IsHex(rest[0]))
    requires prefix == "" && d == "0" ==> !(|rest| > 1 && rest[0] in "xX" && IsHex(rest[1]))
    ensures var v := HexNumber(d) % 0x1_0000_0000;
            Strtoul(ws + (sign + (prefix + (d + rest)))) ==
            if sign == "-" && v > 0 then 0x1_0000_0000 - v else v
  {
    hide HexRun, HexNumber, SkipSpace, IsHex, IsSpace, AllHex, AllSpace;
    var u := prefix + (d + rest);
    Prefixed(prefix, d, rest);
    Signed(sign, u);
    SkipAll(ws, sign + u);
    RunWhole(d, rest);
    StrtoulParts(ws + (sign + u), sign, u, d + rest, HexNumber(d));
  }

  lemma RunWhole(d: string, rest: string)
    requires AllHex(d) && (rest == "" || !IsHex(rest[0]))
    ensures HexRun(d + rest, 0) == HexNumber(d)
  {
    hide HexRun, HexNumber;
    var acc: nat := 0;
    RunOnward(d, rest, acc);
    RunStops(rest, HexNumber(d));
  }

  /** strtoul once the sign and the prefix are cut off. */
  lemma StrtoulParts(s: string, sign: string, u: string, w: string, n: nat)
    requires SkipSpace(s) == sign + u && sign + u != "" && ((sign + u)[0] == '-' <==> sign == "-")
    requires (if (sign + u)[0] == '-' || (sign + u)[0] == '+' then (sign + u)[1..] else sign + u) == u
    requires (if |u| >= 3 && u[0] == '0' && (u[1] == 'x' || u[1] == 'X') && IsHex(u[2]) then u[2..] else u) == w
    requires HexRun(w, 0) == n
    ensures var v := n % 0x1_0000_0000; Strtoul(s) == if sign == "-" && v > 0 then 0x1_0000_0000 - v else v
  {
    hide HexRun, SkipSpace, IsHex;
  }

  lemma Signed(sign: string, u: string)
    requires sign in {"", "+", "-"} && u != "" && IsHex(u[0])
    ensures var t := sign + u;
            t != "" && !IsSpace(t[0]) && (t[0] == '-' <==> sign == "-") && (if t[0] == '-' || t[0] == '+' then t[1..] else t) == u
  {
    if sign == "" {
      assert sign + u == u;
    } else {
      assert (sign + u)[1..] == u;
    }
  }

  lemma Prefixed(prefix: string, d: string, rest: string)
    requires prefix in {"", "0x", "0X"} && d != "" && AllHex(d) && (rest == "" || !IsHex(rest[0]))
    requires prefix == "" && d == "0" ==> !(|rest| > 1 && rest[0] in "xX" && IsHex(rest[1]))
    ensures var u := prefix + (d + rest);
            u != "" && IsHex(u[0]) &&
            (if |u| >= 3 && u[0] == '0' && (u[1] == 'x' || u[1] == 'X') && IsHex(u[2]) then u[2..] else u) == d + rest
  {
    var w := d + rest;
    if prefix == "" {
      assert prefix + w == w;
      if |d| > 1 {
        assert w[1] == d[1];
      } else {
        assert d == [d[0]];
        assert |rest| > 0 ==> w[1] == rest[0];
        assert |rest| > 1 ==> w[2] == rest[1];
      }
    } else {
      assert (prefix + w)[2..] == w;
    }
  }

  // ---------------------------------------------------------------- reading a literal

  /** Where j_parse_str_raw continues after a \u at the front of s, and what it puts. */
  function UnicodeUnit(s: string): (r: (string, nat))
    requires |s| >= 2
    ensures 2 <= r.1 <= |s|
  {
    if |s| < 6 then ("?", 2)
    else
      var cp := Strtoul(s[2..6]);
      if 0xD800 <= cp <= 0xDBFF && |s| >= 12 && s[6] == '\\' && s[7] == 'u' then
        var lo := Strtoul(s[8..12]);
        if 0xDC00 <= lo <= 0xDFFF then (Utf8(0x10000 + (cp - 0xD800) * 1024 + (lo - 0xDC00)), 12)
        else (Utf8(cp), 6)
      else (Utf8(cp), 6)
  }

  /** The character a short escape stands for; unknown escapes stand for themselves. */
  function ShortEscape(e: char): char {
    match e
    case 'n' => '\n'
    case 't' => '\t'
    case 'r' => '\r'
    case 'b' => Char(8)
    case 'f' => Char(12)
    case _ => e
  }

  /** One turn of the reading loop: the bytes put and the characters consumed. */
  function Unit(s: string): (r: (string, nat))
    requires s != ""
    ensures 1 <= r.1 <= |s|
  {
    if s[0] == '\\' && |s| > 1 then
      if s[1] == 'u' then UnicodeUnit(s) else ([ShortEscape(s[1])], 2)
    else ([s[0]], 1)
  }

  /** The body of a literal from just behind its opening quote: the bytes read and what is left. */
  function Body(s: string): (r: (string, string))
    ensures |r.1| <= |s|
    decreases |s|
  {
    if s == "" then ("", "")
    else if s[0] == '\"' then ("", s[1..])
    else
      var (b, n) := Unit(s);
      var (t, rest) := Body(s[n..]);
      (b + t, rest)
  }

  /** A buffer as a C string. */
  function CString(b: string): (t: string)
    ensures '\0' !in t && ('\0' !in b ==> t == b)
  {
    if b == "" || b[0] == '\0' then "" else [b[0]] + CString(b[1..])
  }

  // ---------------------------------------------------------------- escapers

  /** The ways section 7 of RFC 8259 lets a piece of a string be written. */
  datatype Piece = Plain(c: char) | Short(e: char) | Code(h: string) | Pair(hi: string, lo: string)

  predicate Legal(p: Piece) {
    match p
    case Plain(c) => c >= ' ' && c != '\"' && c != '\\'
    case Short(e) => e in "\"\\/bfnrt"
    case Code(h) => Hex4(h) && IsScalar(Hex4Value(h))
    case Pair(hi, lo) => Hex4(hi) && Hex4(lo) && 0xD800 <= Hex4Value(hi) < 0xDC00 && 0xDC00 <= Hex4Value(lo) < 0xE000
  }

  function PieceText(p: Piece): string {
    match p
    case Plain(c) => [c]
    case Short(e) => ['\\', e]
    case Code(h) => ['\\', 'u'] + h
    case Pair(hi, lo) => ['\\', 'u'] + hi + ['\\', 'u'] + lo
  }

  /** The bytes a piece stands for, by section 7 of RFC 8259. */
  function Meaning(p: Piece): string
    requires Legal(p)
  {
    match p
    case Plain(c) => [c]
    case Short(e) => [Char(if e == 'b' then 0x08 else if e == 't' then 0x09 else if e == 'n' then 0x0A else if e == 'f' then 0x0C
                          else if e == 'r' then 0x0D else if e == '/' then 0x2F else if e == '\\' then 0x5C else 0x22)]
    case Code(h) => Utf8(Hex4Value(h))
    case Pair(hi, lo) => Utf8(0x10000 + (Hex4Value(hi) - 0xD800) * 1024 + (Hex4Value(lo) - 0xDC00))
  }

  function Text(ps: seq<Piece>): string {
    if ps == [] then "" else PieceText(ps[0]) + Text(ps[1..])
  }

  ghost predicate AllLegal(ps: seq<Piece>) { forall p :: p in ps ==> Legal(p) }

  function Bytes(ps: seq<Piece>): string
    requires AllLegal(ps)
  {
    if ps == [] then "" else Meaning(ps[0]) + Bytes(ps[1..])
  }

  lemma {:induction false} CodeRead(h: string, more: string)
    requires Legal(Code(h))
    ensures Unit(PieceText(Code(h)) + more) == (Meaning(Code(h)), |PieceText(Code(h))|)
  {
    var s := PieceText(Code(h)) + more;
    StrtoulHex4(h);
    assert s[2..6] == h;
  }

  lemma {:induction false} PairRead(hi: string, lo: string, more: string)
    requires Legal(Pair(hi, lo))
    ensures Unit(PieceText(Pair(hi, lo)) + more) == (Meaning(Pair(hi, lo)), |PieceText(Pair(hi, lo))|)
  {
    var s := PieceText(Pair(hi, lo)) + more;
    StrtoulHex4(hi);
    StrtoulHex4(lo);
    assert s[2..6] == hi && s[8..12] == lo && s[6] == '\\' && s[7] == 'u';
  }

  /** One turn of the loop reads one piece. */
  lemma {:induction false} PieceRead(p: Piece, more: string)
    requires Legal(p)
    ensures Unit(PieceText(p) + more) == (Meaning(p), |PieceText(p)|)
    ensures PieceText(p)[0] != '\"'
  {
    match p
    case Code(h) => CodeRead(h, more);
    case Pair(hi, lo) => PairRead(hi, lo, more);
    case _ =>
  }

  /** Whichever legal way a string is escaped, reading the literal gives the bytes meant and stops
      behind the closing quote. */
  lemma {:induction false} EscapesRead(ps: seq<Piece>, rest: string)
    requires AllLegal(ps)
    ensures Body(Text(ps) + "\"" + rest) == (Bytes(ps), rest)
  {
    var s := Text(ps) + "\"" + rest;
    if ps != [] {
      var more := Text(ps[1..]) + "\"" + rest;
      assert s == PieceText(ps[0]) + more;
      PieceRead(ps[0], more);
      assert s[|PieceText(ps[0])|..] == more;
      EscapesRead(ps[1..], rest);
    } else {
      assert s[1..] == rest;
    }
  }

  // ---------------------------------------------------------------- the escaper of s_json

  function LowerHex(d: nat): char
    requires d < 16
  {
    if d < 10 then ('0' as int + d) as char else ('a' as int + d - 10) as char
  }

  /** What s_json writes for one byte. */
  function PieceOf(c: char): Piece {
    if c == '\"' then Short('\"')
    else if c == '\\' then Short('\\')
    else if c == '\n' then Short('n')
    else if c == '\r' then Short('r')
    else if c == '\t' then Short('t')
    else if c == Char(8) then Short('b')
    else if c == Char(12) then Short('f')
    else if c < ' ' then Code(['0', '0', LowerHex(c as int / 16), LowerHex(c as int % 16)])
    else Plain(c)
  }

  lemma PieceOfMeans(c: char)
    ensures Legal(PieceOf(c)) && Meaning(PieceOf(c)) == [c]
  {
    if PieceOf(c).Code? {
      var x, y := c as int / 16, c as int % 16;
      assert HexDigit(LowerHex(x)) == x && HexDigit(LowerHex(y)) == y;
    }
  }

  function Pieces(z: string): (ps: seq<Piece>)
    ensures |ps| == |z|
  {
    if z == "" then [] else [PieceOf(z[0])] + Pieces(z[1..])
  }

  /** The literal s_json writes for z. */
  function Quoted(z: string): string { "\"" + Text(Pieces(z)) + "\"" }

  lemma {:induction false} PiecesMean(z: string)
    ensures AllLegal(Pieces(z)) && Bytes(Pieces(z)) == z
  {
    if z != "" {
      PieceOfMeans(z[0]);
      PiecesMean(z[1..]);
      assert Pieces(z)[1..] == Pieces(z[1..]);
    }
  }

  /** s_json and j_parse_str_raw undo each other. */
  lemma QuotedReads(z: string, rest: string)
    ensures Quoted(z) + rest != "" && (Quoted(z) + rest)[0] == '\"' && Body((Quoted(z) + rest)[1..]) == (z, rest)
  {
    hide Body, Text, Pieces, Bytes;
    PiecesMean(z);
    EscapesRead(Pieces(z), rest);
    assert (Quoted(z) + rest)[1..] == Text(Pieces(z)) + "\"" + rest;
  }
}
