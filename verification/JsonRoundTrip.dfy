/** Printing with j_emit and parsing again. */
module JsonRoundTrip {
  import opened JsonText
  import opened Json
  import opened JsonGrammar

  /** The text meant for a number, whole ones as digits and others as general (%.17g) writes them, is one
      that strtod reads as that number. */
  ghost predicate Readable(d: real, general: real -> string, strtod: Strtod) {
    var t := if d == d.Floor as real then Decimal(d.Floor) else general(d);
    t != "" && (t[0] == '-' || '0' <= t[0] <= '9') && '\0' !in t && ReadAs(d, t, strtod)
  }

  /** Numbers are readable, strings hold no NUL, keys and kids are as many. */
  ghost predicate Good(v: Value, general: real -> string, strtod: Strtod)
    decreases v
  {
    match v
    case Num(d) => Readable(d, general, strtod)
    case Str(s) => '\0' !in s
    case Arr(kids) => AllGood(kids, general, strtod)
    case Obj(keys, kids) =>
      |keys| == |kids| && AllGood(kids, general, strtod) && forall i :: 0 <= i < |keys| ==> '\0' !in keys[i]
    case _ => true
  }

  ghost predicate AllGood(kids: seq<Value>, general: real -> string, strtod: Strtod)
    decreases kids
  {
    kids == [] || (Good(kids[0], general, strtod) && AllGood(kids[1..], general, strtod))
  }

  /** A number's text is the printed one, and strtod reads it. */
  ghost function Printed(general: real -> string, strtod: Strtod): Numerals {
    (d, t) => t == Number(d, general) && ReadAs(d, t, strtod)
  }

  // ---------------------------------------------------------------- what is printed is a text of the value

  lemma QuotedIsLiteral(z: string)
    requires '\0' !in z
    ensures Literal(z, Quoted(z))
  {
    hide Text, Bytes, Pieces;
    PiecesMean(z);
  }

  lemma NotPadded(v: Value, t: string, nums: Numerals)
    requires Spelled(v, t, nums)
    ensures Padded(v, t, nums)
  {
    hide Spelled;
    assert Blank("") && t == "" + t + "";
  }

  lemma NumberIs(d: real, general: real -> string)
    ensures Number(d, general) == if d == d.Floor as real then Decimal(d.Floor) else general(d)
  {
  }

  lemma {:induction false} EmitSpelled(v: Value, general: real -> string, strtod: Strtod)
    requires Good(v, general, strtod)
    ensures Spelled(v, Emit(v, general), Printed(general, strtod))
    decreases v
  {
    hide Items, Members, Literal, EmitItems, EmitMembers, Quoted;
    match v
    case Num(d) => NumberIs(d, general);
    case Str(s) => QuotedIsLiteral(s);
    case Arr(kids) => EmitItemsSpelled(kids, general, strtod);
    case Obj(keys, kids) => EmitMembersSpelled(keys, kids, general, strtod);
    case _ =>
  }

  lemma {:induction false} EmitItemsSpelled(kids: seq<Value>, general: real -> string, strtod: Strtod)
    requires AllGood(kids, general, strtod)
    ensures Items(kids, EmitItems(kids, general), Printed(general, strtod))
    decreases kids
  {
    hide Emit, Spelled, Padded;
    if kids != [] {
      var a := Emit(kids[0], general);
      EmitSpelled(kids[0], general, strtod);
      NotPadded(kids[0], a, Printed(general, strtod));
      if |kids| > 1 {
        var b := EmitItems(kids[1..], general);
        EmitItemsSpelled(kids[1..], general, strtod);
        assert a + ("," + b) == a + "," + b;
      } else {
        assert a + "" == a;
      }
    }
  }

  lemma EmitMember(key: string, v: Value, text: string, nums: Numerals)
    requires '\0' !in key && Spelled(v, text, nums)
    ensures Member(key, v, Quoted(key) + ":" + text, nums)
  {
    hide Spelled, Literal, Padded, Quoted;
    QuotedIsLiteral(key);
    NotPadded(v, text, nums);
    assert Blank("") && Quoted(key) + ":" + text == "" + Quoted(key) + "" + ":" + text;
  }

  lemma {:induction false} EmitMembersSpelled(keys: seq<string>, kids: seq<Value>, general: real -> string, strtod: Strtod)
    requires |keys| == |kids| && AllGood(kids, general, strtod) && forall i :: 0 <= i < |keys| ==> '\0' !in keys[i]
    ensures Members(keys, kids, EmitMembers(keys, kids, general), Printed(general, strtod))
    decreases kids
  {
    hide Emit, Spelled, Member, Quoted;
    if kids != [] {
      var a := Quoted(keys[0]) + ":" + Emit(kids[0], general);
      EmitSpelled(kids[0], general, strtod);
      EmitMember(keys[0], kids[0], Emit(kids[0], general), Printed(general, strtod));
      if |kids| > 1 {
        var b := EmitMembers(keys[1..], kids[1..], general);
        EmitMembersSpelled(keys[1..], kids[1..], general, strtod);
        assert a + ("," + b) == a + "," + b;
      } else {
        assert a + "" == a;
      }
    }
  }

  /** Parsing what was printed gives the value back and stops right behind it, for values that
      nest no deeper than the parser allows. */
  lemma PrintedReads(v: Value, rest: string, depth: nat, general: real -> string, strtod: Strtod)
    requires Good(v, general, strtod) && Ends(rest) && depth + Depth(v) <= MAX_DEPTH
    ensures ValueAt(Emit(v, general) + rest, depth, strtod) == Parsed(v, rest)
  {
    hide Spelled, ValueAt, Good, Depth, Emit;
    EmitSpelled(v, general, strtod);
    SpelledReads(v, Emit(v, general), rest, depth, strtod, Printed(general, strtod));
  }

  // ---------------------------------------------------------------- what is printed is the shortest text

  lemma {:induction false} TextJoin(a: seq<Piece>, b: seq<Piece>)
    ensures Text(a + b) == Text(a) + Text(b)
  {
    if a == [] {
      assert a + b == b;
    } else {
      assert (a + b)[1..] == a[1..] + b;
      TextJoin(a[1..], b);
    }
  }

  lemma {:induction false} PiecesJoin(x: string, y: string)
    ensures Pieces(x + y) == Pieces(x) + Pieces(y)
  {
    if x == "" {
      assert x + y == y;
    } else {
      assert (x + y)[1..] == x[1..] + y;
      PiecesJoin(x[1..], y);
    }
  }

  lemma PieceSize(c: char)
    ensures |PieceText(PieceOf(c))| == if PieceOf(c).Plain? then 1 else if PieceOf(c).Short? then 2 else 6
    ensures c as int >= 128 ==> PieceOf(c).Plain?
  {
  }

  /** No legal way of writing a piece is shorter than the escaper's. */
  lemma PieceShortest(p: Piece)
    requires Legal(p)
    ensures |Text(Pieces(Meaning(p)))| <= |PieceText(p)|
  {
    hide Text, Pieces, PieceOf;
    var z := Meaning(p);
    BytesSize(z);
    match p
    case Plain(c) => PlainStays(c);
    case Short(e) => ShortStays(e, z[0]);
    case Code(h) => CodeSize(Hex4Value(h));
    case Pair(hi, lo) => CodeSize(0x10000 + (Hex4Value(hi) - 0xD800) * 1024 + (Hex4Value(lo) - 0xDC00));
  }

  lemma PlainStays(c: char)
    requires Legal(Plain(c))
    ensures PieceOf(c) == Plain(c)
  {
  }

  lemma ShortStays(e: char, c: char)
    requires Legal(Short(e)) && Meaning(Short(e)) == [c]
    ensures |PieceText(PieceOf(c))| <= 2
  {
  }

  /** The bytes of a code point: one, or up to four that need no escape. */
  lemma CodeSize(cp: nat)
    ensures |Utf8(cp)| == 1 || (|Utf8(cp)| <= 4 && forall i :: 0 <= i < |Utf8(cp)| ==> PieceOf(Utf8(cp)[i]).Plain?)
  {
  }

  lemma {:induction false} BytesSize(z: string)
    ensures |z| == 1 ==> |Text(Pieces(z))| == |PieceText(PieceOf(z[0]))| <= 6
    ensures (forall i :: 0 <= i < |z| ==> PieceOf(z[i]).Plain?) ==> |Text(Pieces(z))| == |z|
  {
    hide PieceOf;
    if z != "" {
      BytesSize(z[1..]);
      PieceSize(z[0]);
      assert Pieces(z)[0] == PieceOf(z[0]) && Pieces(z)[1..] == Pieces(z[1..]);
    }
  }

  lemma {:induction false} LiteralShortest(ps: seq<Piece>)
    requires AllLegal(ps)
    ensures |Text(Pieces(Bytes(ps)))| <= |Text(ps)|
  {
    hide PieceOf;
    if ps != [] {
      LiteralShortest(ps[1..]);
      PieceShortest(ps[0]);
      PiecesJoin(Meaning(ps[0]), Bytes(ps[1..]));
      TextJoin(Pieces(Meaning(ps[0])), Pieces(Bytes(ps[1..])));
    }
  }

  lemma QuotedShortest(z: string, t: string)
    requires Literal(z, t)
    ensures |Quoted(z)| <= |t|
  {
    hide Text, Pieces, Bytes;
    var ps :| AllLegal(ps) && Bytes(ps) == z && t == "\"" + Text(ps) + "\"";
    LiteralShortest(ps);
  }

  /** No text of a number is shorter than the printed one. */
  ghost predicate NoShorter(nums: Numerals, general: real -> string) {
    forall d: real, t: string :: nums(d, t) ==> |Number(d, general)| <= |t|
  }

  /** No text of a value is shorter than the one printed, if none of its numbers' is. */
  lemma {:induction false} EmitShortest(v: Value, t: string, general: real -> string, nums: Numerals)
    requires Spelled(v, t, nums) && NoShorter(nums, general)
    ensures |Emit(v, general)| <= |t|
    decreases v, 1
  {
    hide Items, Members, Literal, Quoted;
    match v
    case Str(s) => QuotedShortest(s, t);
    case Arr(kids) =>
      var body: string :| t == "[" + body + "]" && Items(kids, body, nums);
      ItemsShortest(kids, body, general, nums);
    case Obj(keys, kids) =>
      var body: string :| t == "{" + body + "}" && Members(keys, kids, body, nums);
      MembersShortest(keys, kids, body, general, nums);
    case _ =>
  }

  lemma {:induction false} PaddedShortest(v: Value, t: string, general: real -> string, nums: Numerals)
    requires Padded(v, t, nums) && NoShorter(nums, general)
    ensures |Emit(v, general)| <= |t|
    decreases v, 2
  {
    hide Emit, Spelled;
    var l, m, r :| Blank(l) && Blank(r) && t == l + m + r && Spelled(v, m, nums);
    EmitShortest(v, m, general, nums);
  }

  lemma {:induction false} ItemsShortest(kids: seq<Value>, t: string, general: real -> string, nums: Numerals)
    requires Items(kids, t, nums) && NoShorter(nums, general)
    ensures |EmitItems(kids, general)| <= |t|
    decreases kids, 3
  {
    hide Emit, Padded, Items;
    if |kids| == 1 {
      SingleItem(kids, t, nums);
      PaddedShortest(kids[0], t, general, nums);
    } else if kids != [] {
      var a, b := ItemsCut(kids, t, nums);
      PaddedShortest(kids[0], a, general, nums);
      ItemsShortest(kids[1..], b, general, nums);
    }
  }

  lemma {:induction false} MemberShortest(key: string, v: Value, t: string, general: real -> string, nums: Numerals)
    requires Member(key, v, t, nums) && NoShorter(nums, general)
    ensures |Quoted(key)| + 1 + |Emit(v, general)| <= |t|
    decreases v, 3
  {
    hide Emit, Quoted, Literal, Padded;
    var l, k, r, a :| Blank(l) && Blank(r) && Literal(key, k) && Padded(v, a, nums) && t == l + k + r + ":" + a;
    QuotedShortest(key, k);
    PaddedShortest(v, a, general, nums);
  }

  lemma {:induction false} MembersShortest(keys: seq<string>, kids: seq<Value>, t: string, general: real -> string, nums: Numerals)
    requires |keys| == |kids| && Members(keys, kids, t, nums) && NoShorter(nums, general)
    ensures |EmitMembers(keys, kids, general)| <= |t|
    decreases kids, 4
  {
    hide Emit, Quoted, Member, Members;
    if |kids| == 1 {
      SingleMember(keys, kids, t, nums);
      MemberShortest(keys[0], kids[0], t, general, nums);
    } else if kids != [] {
      var a, b := MembersCut(keys, kids, t, nums);
      MemberShortest(keys[0], kids[0], a, general, nums);
      MembersShortest(keys[1..], kids[1..], b, general, nums);
    }
  }

  // ---------------------------------------------------------------- main theorems

  lemma {:induction false} RoundTrip(v: Value, general: real -> string, strtod: Strtod)
    requires Good(v, general, strtod) && Depth(v) <= MAX_DEPTH
    ensures Parse(Emit(v, general), strtod) == v
  {
    hide ValueAt, Emit, Good, Depth;
    PrintedReads(v, "", 0, general, strtod);
    assert Emit(v, general) + "" == Emit(v, general);
  }

  /** Whatever the text, the value read nests no deeper than the limit allows. */
  lemma {:induction false} ReadDepth(s: string, depth: nat, strtod: Strtod)
    requires depth <= MAX_DEPTH
    ensures depth + Depth(ValueAt(s, depth, strtod).v) <= MAX_DEPTH
    decreases |s|, 0
  {
    hide ElementsAt, MembersAt;
    var t := SkipSpace(s);
    if Starts(t, '{') && depth < MAX_DEPTH {
      var u := SkipSpace(t[1..]);
      if !Starts(u, '}') {
        MembersDepth(u, depth + 1, strtod, [], []);
      }
    } else if Starts(t, '[') && depth < MAX_DEPTH {
      var u := SkipSpace(t[1..]);
      if !Starts(u, ']') {
        ElementsDepth(u, depth + 1, strtod, []);
      }
    }
  }

  lemma {:induction false} MaxDepthPush(kids: seq<Value>, v: Value)
    ensures MaxDepth(kids + [v]) == if Depth(v) > MaxDepth(kids) then Depth(v) else MaxDepth(kids)
  {
    hide Depth;
    if kids == [] {
      assert kids + [v] == [v] && [v][1..] == [];
    } else {
      assert (kids + [v])[1..] == kids[1..] + [v];
      MaxDepthPush(kids[1..], v);
    }
  }

  lemma {:induction false} ElementsDepth(s: string, depth: nat, strtod: Strtod, kids: seq<Value>)
    requires 0 < depth <= MAX_DEPTH && depth + MaxDepth(kids) <= MAX_DEPTH
    ensures depth - 1 + Depth(ElementsAt(s, depth, strtod, kids).v) <= MAX_DEPTH
    decreases |s|, 1
  {
    hide ValueAt;
    var p := ValueAt(s, depth, strtod);
    var t := SkipSpace(p.rest);
    ReadDepth(s, depth, strtod);
    MaxDepthPush(kids, p.v);
    if Starts(t, ',') {
      ElementsDepth(t[1..], depth, strtod, kids + [p.v]);
    }
  }

  lemma {:induction false} MembersDepth(s: string, depth: nat, strtod: Strtod, keys: seq<string>, kids: seq<Value>)
    requires 0 < depth <= MAX_DEPTH && depth + MaxDepth(kids) <= MAX_DEPTH
    ensures depth - 1 + Depth(MembersAt(s, depth, strtod, keys, kids).v) <= MAX_DEPTH
    decreases |s|, 1
  {
    hide ValueAt;
    var t := SkipSpace(s);
    if Starts(t, '\"') {
      var (key, rest) := StringAt(t);
      var p := ValueAt(AfterColon(rest), depth, strtod);
      var u := SkipSpace(p.rest);
      ReadDepth(AfterColon(rest), depth, strtod);
      MaxDepthPush(kids, p.v);
      if Starts(u, ',') {
        MembersDepth(u[1..], depth, strtod, keys + [key], kids + [p.v]);
      }
    }
  }

  /** The nesting limit is exactly what a printable value has to meet. */
  lemma {:induction false} RoundTripIff(v: Value, general: real -> string, strtod: Strtod)
    requires Good(v, general, strtod)
    ensures Parse(Emit(v, general), strtod) == v <==> Depth(v) <= MAX_DEPTH
  {
    hide ValueAt, Emit, Good, Depth;
    ReadDepth(Emit(v, general), 0, strtod);
    if Depth(v) <= MAX_DEPTH {
      RoundTrip(v, general, strtod);
    }
  }

  // ---------------------------------------------------------------- texts of any origin

  /** Good, but for the numbers. */
  ghost predicate Shaped(v: Value)
    decreases v
  {
    match v
    case Str(s) => '\0' !in s
    case Arr(kids) => AllShaped(kids)
    case Obj(keys, kids) => |keys| == |kids| && AllShaped(kids) && forall i :: 0 <= i < |keys| ==> '\0' !in keys[i]
    case _ => true
  }

  ghost predicate AllShaped(kids: seq<Value>)
    decreases kids
  {
    kids == [] || (Shaped(kids[0]) && AllShaped(kids[1..]))
  }

  /** All numbers are readable. */
  ghost predicate Numbers(v: Value, general: real -> string, strtod: Strtod)
    decreases v
  {
    match v
    case Num(d) => Readable(d, general, strtod)
    case Arr(kids) => AllNumbers(kids, general, strtod)
    case Obj(keys, kids) => AllNumbers(kids, general, strtod)
    case _ => true
  }

  ghost predicate AllNumbers(kids: seq<Value>, general: real -> string, strtod: Strtod)
    decreases kids
  {
    kids == [] || (Numbers(kids[0], general, strtod) && AllNumbers(kids[1..], general, strtod))
  }

  lemma {:induction false} GoodParts(v: Value, general: real -> string, strtod: Strtod)
    ensures Good(v, general, strtod) <==> Shaped(v) && Numbers(v, general, strtod)
    decreases v
  {
    hide Readable;
    if v.Arr? || v.Obj? {
      AllGoodParts(v.kids, general, strtod);
    }
  }

  lemma {:induction false} AllGoodParts(kids: seq<Value>, general: real -> string, strtod: Strtod)
    ensures AllGood(kids, general, strtod) <==> AllShaped(kids) && AllNumbers(kids, general, strtod)
    decreases kids
  {
    if kids != [] {
      GoodParts(kids[0], general, strtod);
      AllGoodParts(kids[1..], general, strtod);
    }
  }

  lemma {:induction false} ShapedPush(kids: seq<Value>, v: Value)
    requires AllShaped(kids) && Shaped(v)
    ensures AllShaped(kids + [v])
  {
    hide Shaped;
    if kids == [] {
      assert kids + [v] == [v] && [v][1..] == [];
    } else {
      assert (kids + [v])[1..] == kids[1..] + [v];
      ShapedPush(kids[1..], v);
    }
  }

  /** Whatever the text, the value read is well shaped. */
  lemma {:induction false} ReadShaped(s: string, depth: nat, strtod: Strtod)
    ensures Shaped(ValueAt(s, depth, strtod).v)
    decreases |s|, 0
  {
    hide ElementsAt, MembersAt, CString, Body;
    var t := SkipSpace(s);
    if Starts(t, '{') && depth < MAX_DEPTH {
      var u := SkipSpace(t[1..]);
      if !Starts(u, '}') {
        MembersShaped(u, depth + 1, strtod, [], []);
      }
    } else if Starts(t, '[') && depth < MAX_DEPTH {
      var u := SkipSpace(t[1..]);
      if !Starts(u, ']') {
        ElementsShaped(u, depth + 1, strtod, []);
      }
    }
  }

  lemma {:induction false} ElementsShaped(s: string, depth: nat, strtod: Strtod, kids: seq<Value>)
    requires AllShaped(kids)
    ensures Shaped(ElementsAt(s, depth, strtod, kids).v)
    decreases |s|, 1
  {
    hide ValueAt, AllShaped;
    var p := ValueAt(s, depth, strtod);
    var t := SkipSpace(p.rest);
    ReadShaped(s, depth, strtod);
    ShapedPush(kids, p.v);
    if Starts(t, ',') {
      ElementsShaped(t[1..], depth, strtod, kids + [p.v]);
    }
  }

  lemma {:induction false} MembersShaped(s: string, depth: nat, strtod: Strtod, keys: seq<string>, kids: seq<Value>)
    requires Shaped(Obj(keys, kids))
    ensures Shaped(MembersAt(s, depth, strtod, keys, kids).v)
    decreases |s|, 1
  {
    hide ValueAt, AllShaped, CString, Body;
    var t := SkipSpace(s);
    if Starts(t, '\"') {
      var (key, rest) := StringAt(t);
      var p := ValueAt(AfterColon(rest), depth, strtod);
      var u := SkipSpace(p.rest);
      ReadShaped(AfterColon(rest), depth, strtod);
      ShapedPush(kids, p.v);
      if Starts(u, ',') {
        MembersShaped(u[1..], depth, strtod, keys + [key], kids + [p.v]);
      }
    }
  }

  /** Whatever the text, well formed or not: printing what was read and reading that again changes
      nothing, as long as the numbers read are readable from their own texts. */
  lemma {:induction false} Settles(text: string, general: real -> string, strtod: Strtod)
    requires Numbers(Parse(text, strtod), general, strtod)
    ensures var v := Parse(text, strtod); Parse(Emit(v, general), strtod) == v
  {
    hide ValueAt, Emit, Good, Depth, Shaped, Numbers;
    ReadShaped(text, 0, strtod);
    ReadDepth(text, 0, strtod);
    GoodParts(Parse(text, strtod), general, strtod);
    RoundTrip(Parse(text, strtod), general, strtod);
  }

  // ---------------------------------------------------------------- strtod on integers

  /** 2^53: up to here every integer is a double. */
  const EXACT: int := 0x20_0000_0000_0000

  /** strtod reads back the integers a double holds exactly. */
  ghost predicate ReadsIntegers(strtod: Strtod) {
    forall n: int, rest: string ::
      -EXACT <= n <= EXACT && Ends(rest) ==> strtod(Decimal(n) + rest) == (n as real, |Decimal(n)|)
  }

  /** Then they are readable, however other numbers are written. */
  lemma {:induction false} IntegersReadable(n: int, general: real -> string, strtod: Strtod)
    requires ReadsIntegers(strtod) && -EXACT <= n <= EXACT
    ensures Readable(n as real, general, strtod)
  {
    DecimalClean(n);
  }

  lemma {:induction false} DecimalClean(n: int)
    ensures '\0' !in Decimal(n) && Decimal(n) != "" && (Decimal(n)[0] == '-' || '0' <= Decimal(n)[0] <= '9')
  {
    var m := if n < 0 then -n else n;
    DigitsRead(m);
    forall i | 0 <= i < |Decimal(n)|
      ensures Decimal(n)[i] != '\0'
    {
      if n < 0 && i > 0 {
        assert Decimal(n)[i] == Digits(m)[i - 1];
      }
    }
  }

  /** Number of leading digits. */
  function DigitRun(s: string): (n: nat)
    ensures n <= |s|
  {
    if s != "" && '0' <= s[0] <= '9' then 1 + DigitRun(s[1..]) else 0
  }

  function DigitsValue(t: string): int {
    if t == "" then 0 else DigitsValue(t[..|t| - 1]) * 10 + (t[|t| - 1] as int - '0' as int)
  }

  /** strtod as far as integers go: a sign and digits. */
  function ReadDecimal(s: string): (r: (real, nat))
    ensures r.1 <= |s|
  {
    var negative := s != "" && s[0] == '-';
    var t := if negative then s[1..] else s;
    var n := DigitRun(t);
    var v := DigitsValue(t[..n]);
    if negative then (if n == 0 then (0.0, 0) else ((-v) as real, n + 1)) else (v as real, n)
  }

  lemma {:induction false} DigitsRead(n: nat)
    ensures DigitsValue(Digits(n)) == n && forall i :: 0 <= i < |Digits(n)| ==> '0' <= Digits(n)[i] <= '9'
  {
    if n >= 10 {
      DigitsRead(n / 10);
      assert Digits(n)[..|Digits(n)| - 1] == Digits(n / 10);
    } else {
      assert Digits(n)[..0] == "";
    }
  }

  lemma {:induction false} RunOfDigits(t: string, rest: string)
    requires (forall i :: 0 <= i < |t| ==> '0' <= t[i] <= '9') && Ends(rest)
    ensures DigitRun(t + rest) == |t|
  {
    if t == "" {
      assert t + rest == rest;
    } else {
      assert (t + rest)[1..] == t[1..] + rest;
      RunOfDigits(t[1..], rest);
    }
  }

  /** What is asked of strtod can be met: the plain reader of integers meets it. */
  lemma IntegersCanBeRead()
    ensures ReadsIntegers(ReadDecimal)
  {
    forall n: int, rest: string | -EXACT <= n <= EXACT && Ends(rest)
      ensures ReadDecimal(Decimal(n) + rest) == (n as real, |Decimal(n)|)
    {
      DecimalRead(n, rest);
    }
  }

  lemma DecimalRead(n: int, rest: string)
    requires Ends(rest)
    ensures ReadDecimal(Decimal(n) + rest) == (n as real, |Decimal(n)|)
  {
    hide Digits, DigitRun, DigitsValue, Ends;
    var m := if n < 0 then -n else n;
    DigitsRead(m);
    RunOfDigits(Digits(m), rest);
    assert (Digits(m) + rest)[..|Digits(m)|] == Digits(m);
    if n < 0 {
      assert (Decimal(n) + rest)[1..] == Digits(m) + rest;
    } else {
      assert Decimal(n) == Digits(m);
    }
  }
}
