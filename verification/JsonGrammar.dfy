/** The texts of a JSON value by RFC 8259: white space around every token, any legal escapes in
    strings, any text of a number that strtod reads as it. The parser reads every one of them. */
module JsonGrammar {
  import opened JsonText
  import opened Json

  // ---------------------------------------------------------------- the grammar

  /** White space by section 2 of RFC 8259. */
  ghost predicate Blank(w: string) {
    forall i :: 0 <= i < |w| ==> w[i] in " \t\n\r"
  }

  /** Which texts a number may have. */
  type Numerals = (real, string) -> bool

  /** t is a string literal of the C string s. */
  ghost predicate Literal(s: string, t: string) {
    '\0' !in s && exists ps: seq<Piece> :: AllLegal(ps) && Bytes(ps) == s && t == "\"" + Text(ps) + "\""
  }

  /** t is a text of v, without white space around it. */
  ghost predicate Spelled(v: Value, t: string, nums: Numerals)
    decreases v, 0
  {
    match v
    case Null => t == "null"
    case Bool(b) => t == if b then "true" else "false"
    case Num(d) => nums(d, t) && t != "" && (t[0] == '-' || '0' <= t[0] <= '9')
    case Str(s) => Literal(s, t)
    case Arr(kids) => exists body: string :: t == "[" + body + "]" && Items(kids, body, nums)
    case Obj(keys, kids) => |keys| == |kids| && exists body: string :: t == "{" + body + "}" && Members(keys, kids, body, nums)
  }

  ghost predicate Padded(v: Value, t: string, nums: Numerals)
    decreases v, 1
  {
    exists l: string, m: string, r: string :: Blank(l) && Blank(r) && t == l + m + r && Spelled(v, m, nums)
  }

  ghost predicate Items(kids: seq<Value>, t: string, nums: Numerals)
    decreases kids, 3
  {
    if kids == [] then Blank(t)
    else if |kids| == 1 then Padded(kids[0], t, nums)
    else exists a: string, b: string :: t == a + "," + b && Padded(kids[0], a, nums) && Items(kids[1..], b, nums)
  }

  ghost predicate Member(key: string, v: Value, t: string, nums: Numerals)
    decreases v, 2
  {
    exists l: string, k: string, r: string, a: string ::
      Blank(l) && Blank(r) && Literal(key, k) && Padded(v, a, nums) && t == l + k + r + ":" + a
  }

  ghost predicate Members(keys: seq<string>, kids: seq<Value>, t: string, nums: Numerals)
    requires |keys| == |kids|
    decreases kids, 3
  {
    if kids == [] then Blank(t)
    else if |kids| == 1 then Member(keys[0], kids[0], t, nums)
    else exists a: string, b: string :: t == a + "," + b && Member(keys[0], kids[0], a, nums) && Members(keys[1..], kids[1..], b, nums)
  }

  /** How deep arrays and objects nest. */
  function Depth(v: Value): nat
    decreases v
  {
    match v
    case Arr(kids) => 1 + MaxDepth(kids)
    case Obj(keys, kids) => 1 + MaxDepth(kids)
    case _ => 0
  }

  function MaxDepth(kids: seq<Value>): nat
    decreases kids
  {
    if kids == [] then 0
    else
      var a, b := Depth(kids[0]), MaxDepth(kids[1..]);
      if a > b then a else b
  }

  /** The texts that can stand behind a value. */
  predicate Ends(rest: string) { rest == "" || rest[0] in ",]} \t\n\r" }

  /** strtod reads t as d, whatever may stand behind it. */
  ghost predicate ReadAs(d: real, t: string, strtod: Strtod) {
    forall rest: string :: Ends(rest) ==> strtod(t + rest) == (d, |t|)
  }

  ghost predicate AllRead(nums: Numerals, strtod: Strtod) {
    forall d: real, t: string :: nums(d, t) ==> ReadAs(d, t, strtod)
  }

  // ---------------------------------------------------------------- white space

  lemma {:induction false} SkipBlank(w: string, s: string)
    requires Blank(w)
    ensures SkipSpace(w + s) == SkipSpace(s)
  {
    if w == "" {
      assert w + s == s;
    } else {
      Spaces(w[0]);
      assert (w + s)[1..] == w[1..] + s;
      SkipBlank(w[1..], s);
    }
  }

  /** Neither the value nor the loop over elements sees white space in front of it. */
  lemma ValueSkips(s: string, depth: nat, strtod: Strtod)
    ensures ValueAt(SkipSpace(s), depth, strtod) == ValueAt(s, depth, strtod)
  {
    hide ObjectAt, ArrayAt, WordAt, StringAt;
    assert SkipSpace(SkipSpace(s)) == SkipSpace(s);
  }

  lemma ElementsSkip(s: string, depth: nat, strtod: Strtod, kids: seq<Value>)
    ensures ElementsAt(SkipSpace(s), depth, strtod, kids) == ElementsAt(s, depth, strtod, kids)
  {
    hide ValueAt;
    ValueSkips(s, depth, strtod);
  }

  /** No value starts with white space or a closing bracket. */
  predicate Opens(c: char) { !IsSpace(c) && c != ']' && c != '}' }

  lemma SpelledOpens(v: Value, t: string, nums: Numerals)
    requires Spelled(v, t, nums)
    ensures t != "" && Opens(t[0])
  {
    hide Items, Members;
  }

  // ---------------------------------------------------------------- scalars

  lemma NullReads(rest: string, depth: nat, strtod: Strtod)
    ensures ValueAt("null" + rest, depth, strtod) == Parsed(Null, rest)
  {
    var s := "null" + rest;
    assert s[0] == 'n';
    assert s[4..] == rest;
  }

  lemma BoolReads(b: bool, rest: string, depth: nat, strtod: Strtod)
    ensures ValueAt((if b then "true" else "false") + rest, depth, strtod) == Parsed(Bool(b), rest)
  {
    var s := (if b then "true" else "false") + rest;
    assert s[0] == if b then 't' else 'f';
    assert s[if b then 4 else 5..] == rest;
  }

  lemma LiteralReads(z: string, t: string, rest: string)
    requires Literal(z, t)
    ensures Starts(t + rest, '\"') && StringAt(t + rest) == (z, rest)
  {
    hide Body, CString, Text, Bytes;
    var ps :| AllLegal(ps) && Bytes(ps) == z && t == "\"" + Text(ps) + "\"";
    EscapesRead(ps, rest);
    assert (t + rest)[1..] == Text(ps) + "\"" + rest;
    assert CString(z) == z;
  }

  lemma StrReads(z: string, t: string, rest: string, depth: nat, strtod: Strtod)
    requires Literal(z, t)
    ensures ValueAt(t + rest, depth, strtod) == Parsed(Str(z), rest)
  {
    hide Literal, StringAt;
    LiteralReads(z, t, rest);
  }

  /** Text that opens none of the other values is a number. */
  lemma NumberDispatch(s: string, depth: nat, strtod: Strtod)
    requires s != "" && (s[0] == '-' || '0' <= s[0] <= '9')
    ensures ValueAt(s, depth, strtod) == NumberAt(s, strtod)
  {
  }

  lemma NumReads(d: real, t: string, rest: string, depth: nat, strtod: Strtod)
    requires t != "" && (t[0] == '-' || '0' <= t[0] <= '9') && ReadAs(d, t, strtod) && Ends(rest)
    ensures ValueAt(t + rest, depth, strtod) == Parsed(Num(d), rest)
  {
    hide ValueAt, Ends;
    var s := t + rest;
    assert s[|t|..] == rest;
    NumberDispatch(s, depth, strtod);
  }

  // ---------------------------------------------------------------- single steps of the parser

  lemma ArrayOpens(body: string, depth: nat, strtod: Strtod)
    requires depth < MAX_DEPTH
    ensures ValueAt("[" + body, depth, strtod) == ArrayAt(body, depth + 1, strtod)
  {
    hide ArrayAt, ObjectAt, NumberAt, StringAt;
    assert ("[" + body)[1..] == body;
  }

  lemma ObjectOpens(body: string, depth: nat, strtod: Strtod)
    requires depth < MAX_DEPTH
    ensures ValueAt("{" + body, depth, strtod) == ObjectAt(body, depth + 1, strtod)
  {
    hide ArrayAt, ObjectAt, NumberAt, StringAt;
    assert ("{" + body)[1..] == body;
  }

  /** The loop behind an element: on with the next one, or the array, with its bracket if it is closed. */
  function AfterElement(more: string, depth: nat, strtod: Strtod, kids: seq<Value>): Parsed {
    var u := SkipSpace(more);
    if Starts(u, ',') then ElementsAt(u[1..], depth, strtod, kids)
    else Parsed(Arr(kids), if Starts(u, ']') then u[1..] else u)
  }

  function AfterMember(more: string, depth: nat, strtod: Strtod, keys: seq<string>, kids: seq<Value>): Parsed {
    var u := SkipSpace(more);
    if Starts(u, ',') then MembersAt(u[1..], depth, strtod, keys, kids)
    else Parsed(Obj(keys, kids), if Starts(u, '}') then u[1..] else u)
  }

  lemma ElementStep(s: string, depth: nat, strtod: Strtod, acc: seq<Value>, v: Value, w: string, more: string)
    requires ValueAt(s, depth, strtod) == Parsed(v, w + more) && Blank(w)
    ensures ElementsAt(s, depth, strtod, acc) == AfterElement(more, depth, strtod, acc + [v])
  {
    hide ValueAt, SkipSpace;
    SkipBlank(w, more);
  }

  lemma MemberStep(s: string, depth: nat, strtod: Strtod, keys: seq<string>, kids: seq<Value>,
                   key: string, mid: string, text: string, v: Value, w: string, more: string)
    requires Starts(SkipSpace(s), '\"') && StringAt(SkipSpace(s)) == (key, mid) && AfterColon(mid) == text
    requires ValueAt(text, depth, strtod) == Parsed(v, w + more) && Blank(w)
    ensures MembersAt(s, depth, strtod, keys, kids) == AfterMember(more, depth, strtod, keys + [key], kids + [v])
  {
    hide ValueAt, StringAt, AfterColon, SkipSpace;
    SkipBlank(w, more);
  }

  /** A comma leads on, a bracket closes. */
  lemma Separated(tail: string, depth: nat, strtod: Strtod, keys: seq<string>, kids: seq<Value>)
    ensures AfterElement("," + tail, depth, strtod, kids) == ElementsAt(tail, depth, strtod, kids)
    ensures AfterElement("]" + tail, depth, strtod, kids) == Parsed(Arr(kids), tail)
    ensures AfterMember("," + tail, depth, strtod, keys, kids) == MembersAt(tail, depth, strtod, keys, kids)
    ensures AfterMember("}" + tail, depth, strtod, keys, kids) == Parsed(Obj(keys, kids), tail)
  {
    hide ElementsAt, MembersAt;
    assert ("," + tail)[1..] == tail && ("]" + tail)[1..] == tail && ("}" + tail)[1..] == tail;
    Stays("," + tail);
    Stays("]" + tail);
    Stays("}" + tail);
  }

  lemma Stays(s: string)
    requires s != "" && !IsSpace(s[0])
    ensures SkipSpace(s) == s
  {
  }

  lemma ColonReads(w: string, text: string)
    requires Blank(w)
    ensures AfterColon(w + (":" + text)) == text
  {
    SkipBlank(w, ":" + text);
    assert (":" + text)[1..] == text;
  }

  lemma Regroup<T>(a: seq<T>, b: seq<T>)
    requires b != []
    ensures a + [b[0]] + b[1..] == a + b && (|b| == 1 ==> a + [b[0]] == a + b)
  {
  }

  /** Texts put together one way or the other. */
  lemma Wrapped(open: string, body: string, close: string, rest: string)
    ensures open + body + close + rest == open + (body + (close + rest))
  {
  }

  lemma ItemsCut(kids: seq<Value>, t: string, nums: Numerals) returns (a: string, b: string)
    requires |kids| > 1 && Items(kids, t, nums)
    ensures t == a + "," + b && Padded(kids[0], a, nums) && Items(kids[1..], b, nums)
  {
    hide Padded;
    a, b :| t == a + "," + b && Padded(kids[0], a, nums) && Items(kids[1..], b, nums);
  }

  lemma MembersCut(keys: seq<string>, kids: seq<Value>, t: string, nums: Numerals) returns (a: string, b: string)
    requires |keys| == |kids| > 1 && Members(keys, kids, t, nums)
    ensures t == a + "," + b && Member(keys[0], kids[0], a, nums) && Members(keys[1..], kids[1..], b, nums)
  {
    hide Member;
    a, b :| t == a + "," + b && Member(keys[0], kids[0], a, nums) && Members(keys[1..], kids[1..], b, nums);
  }

  lemma SingleItem(kids: seq<Value>, t: string, nums: Numerals)
    requires |kids| == 1 && Items(kids, t, nums)
    ensures Padded(kids[0], t, nums)
  {
  }

  lemma SingleMember(keys: seq<string>, kids: seq<Value>, t: string, nums: Numerals)
    requires |keys| == |kids| == 1 && Members(keys, kids, t, nums)
    ensures Member(keys[0], kids[0], t, nums)
  {
  }

  // ---------------------------------------------------------------- the whole value

  /** Every text of a value that nests no deeper than the parser allows is read as that value, and
      the parser stops right behind it. */
  lemma {:induction false} SpelledReads(v: Value, t: string, rest: string, depth: nat, strtod: Strtod, nums: Numerals)
    requires Spelled(v, t, nums) && Ends(rest) && AllRead(nums, strtod) && depth + Depth(v) <= MAX_DEPTH
    ensures ValueAt(t + rest, depth, strtod) == Parsed(v, rest)
    decreases v, 1
  {
    match v
    case Null => NullReads(rest, depth, strtod);
    case Bool(b) => BoolReads(b, rest, depth, strtod);
    case Num(d) => NumReads(d, t, rest, depth, strtod);
    case Str(s) => StrReads(s, t, rest, depth, strtod);
    case Arr(kids) => ArrReads(v, t, rest, depth, strtod, nums);
    case Obj(keys, kids) => ObjReads(v, t, rest, depth, strtod, nums);
  }

  /** With white space around it: what is behind the value is left, white space first. */
  lemma {:induction false} PaddedReads(v: Value, t: string, rest: string, depth: nat, strtod: Strtod, nums: Numerals) returns (w: string)
    requires Padded(v, t, nums) && Ends(rest) && AllRead(nums, strtod) && depth + Depth(v) <= MAX_DEPTH
    ensures Blank(w) && ValueAt(t + rest, depth, strtod) == Parsed(v, w + rest)
    decreases v, 2
  {
    hide ValueAt, Depth, AllRead, Ends, Spelled, Padded, Blank;
    var l, m, r := PaddedCut(v, t, nums);
    w := r;
    BlankEnds(r, rest);
    SpelledReads(v, m, r + rest, depth, strtod, nums);
    Wrapped(l, m, r, rest);
    ValueAhead(l, m + (r + rest), depth, strtod);
  }

  lemma PaddedCut(v: Value, t: string, nums: Numerals) returns (l: string, m: string, r: string)
    requires Padded(v, t, nums)
    ensures Blank(l) && Blank(r) && t == l + m + r && Spelled(v, m, nums)
  {
    hide Spelled;
    l, m, r :| Blank(l) && Blank(r) && t == l + m + r && Spelled(v, m, nums);
  }

  lemma ValueAhead(w: string, s: string, depth: nat, strtod: Strtod)
    requires Blank(w)
    ensures ValueAt(w + s, depth, strtod) == ValueAt(s, depth, strtod)
  {
    hide ValueAt, SkipSpace;
    SkipBlank(w, s);
    ValueSkips(w + s, depth, strtod);
    ValueSkips(s, depth, strtod);
  }

  lemma BlankEnds(w: string, rest: string)
    requires Blank(w) && Ends(rest)
    ensures Ends(w + rest)
  {
    if w == "" {
      assert w + rest == rest;
    }
  }

  lemma PaddedOpens(v: Value, t: string, more: string, nums: Numerals)
    requires Padded(v, t, nums)
    ensures var u := SkipSpace(t + more); u != "" && Opens(u[0])
  {
    hide Spelled, Padded;
    var l, m, r := PaddedCut(v, t, nums);
    SpelledOpens(v, m, nums);
    SkipBlank(l, m + (r + more));
    assert t + more == l + (m + (r + more));
  }

  lemma {:induction false} ArrReads(v: Value, t: string, rest: string, depth: nat, strtod: Strtod, nums: Numerals)
    requires v.Arr? && Spelled(v, t, nums) && Ends(rest) && AllRead(nums, strtod) && depth + Depth(v) <= MAX_DEPTH
    ensures ValueAt(t + rest, depth, strtod) == Parsed(v, rest)
    decreases v, 0
  {
    hide ValueAt, Ends, AllRead, Items, ArrayAt, MaxDepth;
    var body: string :| t == "[" + body + "]" && Items(v.kids, body, nums);
    Wrapped("[", body, "]", rest);
    ArrayOpens(body + ("]" + rest), depth, strtod);
    BodyReads(v.kids, body, rest, depth + 1, strtod, nums);
  }

  lemma {:induction false} BodyReads(kids: seq<Value>, body: string, rest: string, depth: nat, strtod: Strtod, nums: Numerals)
    requires Items(kids, body, nums) && AllRead(nums, strtod) && depth + MaxDepth(kids) <= MAX_DEPTH
    ensures ArrayAt(body + ("]" + rest), depth, strtod) == Parsed(Arr(kids), rest)
    decreases kids, 3
  {
    hide ElementsAt, AllRead, SkipSpace, Items, ArrayAt, MaxDepth, AfterElement;
    var more := body + ("]" + rest);
    if kids == [] {
      EmptyReads(kids, body, rest, depth, strtod, nums);
    } else {
      ItemsOpen(kids, body, "]" + rest, nums);
      ElementsSkip(more, depth, strtod, []);
      ArrayBody(more, depth, strtod);
      ItemsRead(kids, body, "]" + rest, depth, strtod, [], nums);
      Separated(rest, depth, strtod, [], [] + kids);
      assert [] + kids == kids;
    }
  }

  lemma ArrayBody(s: string, depth: nat, strtod: Strtod)
    requires !Starts(SkipSpace(s), ']')
    ensures ArrayAt(s, depth, strtod) == ElementsAt(SkipSpace(s), depth, strtod, [])
  {
    hide ElementsAt, SkipSpace;
  }

  lemma ObjectBody(s: string, depth: nat, strtod: Strtod)
    requires !Starts(SkipSpace(s), '}')
    ensures ObjectAt(s, depth, strtod) == MembersAt(SkipSpace(s), depth, strtod, [], [])
  {
    hide MembersAt, SkipSpace;
  }

  lemma EmptyReads(kids: seq<Value>, body: string, rest: string, depth: nat, strtod: Strtod, nums: Numerals)
    requires kids == []
    ensures Items(kids, body, nums) ==> ArrayAt(body + ("]" + rest), depth, strtod) == Parsed(Arr(kids), rest)
    ensures Members([], kids, body, nums) ==> ObjectAt(body + ("}" + rest), depth, strtod) == Parsed(Obj([], kids), rest)
  {
    hide ElementsAt, MembersAt, SkipSpace;
    if Blank(body) {
      SkipBlank(body, "]" + rest);
      SkipBlank(body, "}" + rest);
      BracketStays(']', rest);
      BracketStays('}', rest);
    }
  }

  lemma BracketStays(c: char, rest: string)
    requires c == ']' || c == '}'
    ensures SkipSpace([c] + rest) == [c] + rest && Starts([c] + rest, c) && ([c] + rest)[1..] == rest
  {
  }

  lemma ItemsOpen(kids: seq<Value>, t: string, more: string, nums: Numerals)
    requires kids != [] && Items(kids, t, nums)
    ensures !Starts(SkipSpace(t + more), ']')
  {
    hide Padded, SkipSpace, Items;
    if |kids| == 1 {
      SingleItem(kids, t, nums);
      PaddedOpens(kids[0], t, more, nums);
    } else {
      var a, b := ItemsCut(kids, t, nums);
      Wrapped(a, ",", b, more);
      PaddedOpens(kids[0], a, "," + (b + more), nums);
    }
  }

  /** The loop reads all the elements, whatever text is behind them. */
  lemma {:induction false} ItemsRead(kids: seq<Value>, t: string, more: string, depth: nat, strtod: Strtod, acc: seq<Value>, nums: Numerals)
    requires kids != [] && Items(kids, t, nums) && AllRead(nums, strtod) && depth + MaxDepth(kids) <= MAX_DEPTH && Ends(more)
    ensures ElementsAt(t + more, depth, strtod, acc) == AfterElement(more, depth, strtod, acc + kids)
    decreases kids, 2
  {
    hide ValueAt, ElementsAt, AllRead, Depth, Padded, Items, Blank, AfterElement;
    Regroup(acc, kids);
    if |kids| == 1 {
      SingleItem(kids, t, nums);
      var w := PaddedReads(kids[0], t, more, depth, strtod, nums);
      ElementStep(t + more, depth, strtod, acc, kids[0], w, more);
    } else {
      var a, b := ItemsCut(kids, t, nums);
      var tail := b + more;
      Wrapped(a, ",", b, more);
      var w := PaddedReads(kids[0], a, "," + tail, depth, strtod, nums);
      ElementStep(a + ("," + tail), depth, strtod, acc, kids[0], w, "," + tail);
      Separated(tail, depth, strtod, [], acc + [kids[0]]);
      ItemsRead(kids[1..], b, more, depth, strtod, acc + [kids[0]], nums);
    }
  }

  lemma {:induction false} ObjReads(v: Value, t: string, rest: string, depth: nat, strtod: Strtod, nums: Numerals)
    requires v.Obj? && Spelled(v, t, nums) && Ends(rest) && AllRead(nums, strtod) && depth + Depth(v) <= MAX_DEPTH
    ensures ValueAt(t + rest, depth, strtod) == Parsed(v, rest)
    decreases v, 0
  {
    hide ValueAt, Ends, AllRead, Members, ObjectAt, MaxDepth;
    var body: string :| t == "{" + body + "}" && Members(v.keys, v.kids, body, nums);
    Wrapped("{", body, "}", rest);
    ObjectOpens(body + ("}" + rest), depth, strtod);
    MembersBody(v.keys, v.kids, body, rest, depth + 1, strtod, nums);
  }

  lemma {:induction false} MembersBody(keys: seq<string>, kids: seq<Value>, body: string, rest: string, depth: nat, strtod: Strtod, nums: Numerals)
    requires |keys| == |kids| && Members(keys, kids, body, nums) && AllRead(nums, strtod) && depth + MaxDepth(kids) <= MAX_DEPTH
    ensures ObjectAt(body + ("}" + rest), depth, strtod) == Parsed(Obj(keys, kids), rest)
    decreases kids, 3
  {
    hide MembersAt, AllRead, SkipSpace, Members, ObjectAt, MaxDepth, AfterMember;
    var more := body + ("}" + rest);
    if kids == [] {
      EmptyReads(kids, body, rest, depth, strtod, nums);
    } else {
      MembersOpen(keys, kids, body, "}" + rest, nums);
      MembersSkip(more, depth, strtod, [], []);
      ObjectBody(more, depth, strtod);
      MembersRead(keys, kids, body, "}" + rest, depth, strtod, [], [], nums);
      Separated(rest, depth, strtod, [] + keys, [] + kids);
      assert [] + kids == kids && [] + keys == keys;
    }
  }

  lemma MembersSkip(s: string, depth: nat, strtod: Strtod, keys: seq<string>, kids: seq<Value>)
    ensures MembersAt(SkipSpace(s), depth, strtod, keys, kids) == MembersAt(s, depth, strtod, keys, kids)
  {
    hide ValueAt, StringAt, AfterColon;
    assert SkipSpace(SkipSpace(s)) == SkipSpace(s);
  }

  /** The key of a member, up to the value behind its colon. */
  lemma MemberReads(key: string, v: Value, t: string, more: string, nums: Numerals) returns (mid: string, a: string)
    requires Member(key, v, t, nums)
    ensures Padded(v, a, nums) && Starts(SkipSpace(t + more), '\"') && StringAt(SkipSpace(t + more)) == (key, mid)
    ensures AfterColon(mid) == a + more
  {
    hide Padded, Literal, StringAt, AfterColon;
    var l, k, r, x :| Blank(l) && Blank(r) && Literal(key, k) && Padded(v, x, nums) && t == l + k + r + ":" + x;
    a := x;
    mid := r + (":" + (x + more));
    LiteralReads(key, k, mid);
    ColonReads(r, x + more);
    var s := k + mid;
    assert t + more == l + s;
    SkipBlank(l, s);
    Stays(s);
  }

  lemma MembersOpen(keys: seq<string>, kids: seq<Value>, t: string, more: string, nums: Numerals)
    requires |keys| == |kids| > 0 && Members(keys, kids, t, nums)
    ensures !Starts(SkipSpace(t + more), '}')
  {
    hide Member, Members, SkipSpace, StringAt, AfterColon;
    if |kids| == 1 {
      SingleMember(keys, kids, t, nums);
      var mid, a := MemberReads(keys[0], kids[0], t, more, nums);
    } else {
      var a, b := MembersCut(keys, kids, t, nums);
      Wrapped(a, ",", b, more);
      var mid, x := MemberReads(keys[0], kids[0], a, "," + (b + more), nums);
    }
  }

  lemma {:induction false} MembersRead(keys: seq<string>, kids: seq<Value>, t: string, more: string, depth: nat, strtod: Strtod,
                                       keys0: seq<string>, kids0: seq<Value>, nums: Numerals)
    requires |keys| == |kids| > 0 && Members(keys, kids, t, nums) && AllRead(nums, strtod) && depth + MaxDepth(kids) <= MAX_DEPTH
    requires Ends(more)
    ensures MembersAt(t + more, depth, strtod, keys0, kids0) == AfterMember(more, depth, strtod, keys0 + keys, kids0 + kids)
    decreases kids, 2
  {
    hide ValueAt, MembersAt, AllRead, Depth, Padded, Member, Members, StringAt, AfterColon, SkipSpace, Blank, Starts, AfterMember;
    Regroup(keys0, keys);
    Regroup(kids0, kids);
    if |kids| == 1 {
      SingleMember(keys, kids, t, nums);
      var mid, a := MemberReads(keys[0], kids[0], t, more, nums);
      var w := PaddedReads(kids[0], a, more, depth, strtod, nums);
      MemberStep(t + more, depth, strtod, keys0, kids0, keys[0], mid, a + more, kids[0], w, more);
    } else {
      var x, b := MembersCut(keys, kids, t, nums);
      var tail := b + more;
      Wrapped(x, ",", b, more);
      var mid, a := MemberReads(keys[0], kids[0], x, "," + tail, nums);
      var w := PaddedReads(kids[0], a, "," + tail, depth, strtod, nums);
      MemberStep(x + ("," + tail), depth, strtod, keys0, kids0, keys[0], mid, a + ("," + tail), kids[0], w, "," + tail);
      Separated(tail, depth, strtod, keys0 + [keys[0]], kids0 + [kids[0]]);
      MembersRead(keys[1..], kids[1..], b, more, depth, strtod, keys0 + [keys[0]], kids0 + [kids[0]], nums);
    }
  }

  // ---------------------------------------------------------------- malformed texts

  /** Behind white space stands x, which neither goes on with c nor closes with d. */
  ghost predicate Stray(w: string, x: string, c: char, d: char) {
    Blank(w) && (x == "" || (w != "" && !IsSpace(x[0]) && x[0] != c && x[0] != d))
  }

  lemma StrayStays(w: string, x: string, c: char, d: char)
    requires Stray(w, x, c, d)
    ensures SkipSpace(w + x) == x && Ends(w + x)
  {
    SkipBlank(w, x);
    if x == "" {
      BlankEnds(w, "");
    }
  }

  /** An array that goes on with neither a comma nor its bracket ends there, with the elements read. */
  lemma OpenArray(kids: seq<Value>, t: string, w: string, x: string, strtod: Strtod, nums: Numerals)
    requires kids != [] && Items(kids, t, nums) && AllRead(nums, strtod) && MaxDepth(kids) < MAX_DEPTH
    requires Stray(w, x, ',', ']')
    ensures Parse("[" + (t + (w + x)), strtod) == Arr(kids)
  {
    hide ValueAt, AllRead, MaxDepth, Items, ElementsAt, SkipSpace, Ends;
    var body, depth: nat := t + (w + x), 0;
    StrayStays(w, x, ',', ']');
    ArrayOpens(body, depth, strtod);
    ItemsOpen(kids, t, w + x, nums);
    ArrayBody(body, depth + 1, strtod);
    ElementsSkip(body, depth + 1, strtod, []);
    ItemsRead(kids, t, w + x, depth + 1, strtod, [], nums);
    assert [] + kids == kids;
  }

  /** So does an object, and one whose comma is followed by no key. */
  lemma OpenObject(keys: seq<string>, kids: seq<Value>, t: string, w: string, x: string, strtod: Strtod, nums: Numerals)
    requires |keys| == |kids| > 0 && Members(keys, kids, t, nums) && AllRead(nums, strtod) && MaxDepth(kids) < MAX_DEPTH
    ensures Stray(w, x, ',', '}') ==> Parse("{" + (t + (w + x)), strtod) == Obj(keys, kids)
    ensures Blank(w) && (x == "" || (x[0] != '\"' && !IsSpace(x[0]))) ==> Parse("{" + (t + ("," + (w + x))), strtod) == Obj(keys, kids)
  {
    hide ValueAt, AllRead, MaxDepth, Members, MembersAt, SkipSpace, Ends;
    if Stray(w, x, ',', '}') {
      StrayStays(w, x, ',', '}');
      OpenObjectText(keys, kids, t, w + x, strtod, nums);
    }
    if Blank(w) && (x == "" || (x[0] != '\"' && !IsSpace(x[0]))) {
      CommaEnds(w + x);
      OpenObjectText(keys, kids, t, "," + (w + x), strtod, nums);
      Separated(w + x, 1, strtod, keys, kids);
      NoKey(w, x, strtod, keys, kids);
    }
  }

  lemma CommaEnds(s: string)
    ensures Ends("," + s)
  {
  }

  lemma NoKey(w: string, x: string, strtod: Strtod, keys: seq<string>, kids: seq<Value>)
    requires Blank(w) && (x == "" || (x[0] != '\"' && !IsSpace(x[0])))
    ensures MembersAt(w + x, 1, strtod, keys, kids).v == Obj(keys, kids)
  {
    SkipBlank(w, x);
  }

  lemma OpenObjectText(keys: seq<string>, kids: seq<Value>, t: string, more: string, strtod: Strtod, nums: Numerals)
    requires |keys| == |kids| > 0 && Members(keys, kids, t, nums) && AllRead(nums, strtod) && MaxDepth(kids) < MAX_DEPTH
    requires Ends(more)
    ensures Parse("{" + (t + more), strtod) == AfterMember(more, 1, strtod, keys, kids).v
  {
    hide ValueAt, AllRead, MaxDepth, Members, MembersAt, SkipSpace, Ends, AfterMember;
    var body, depth: nat := t + more, 0;
    ObjectOpens(body, depth, strtod);
    MembersOpen(keys, kids, t, more, nums);
    MembersSkip(body, depth + 1, strtod, [], []);
    ObjectBody(body, depth + 1, strtod);
    MembersRead(keys, kids, t, more, depth + 1, strtod, [], [], nums);
    assert [] + kids == kids && [] + keys == keys;
  }

  // ---------------------------------------------------------------- every text of a value

  /** A text of a value with white space around every token parses to that value, up to the nesting
      limit; what stands behind it is not looked at. */
  lemma GrammarReads(v: Value, t: string, rest: string, strtod: Strtod, nums: Numerals)
    requires Padded(v, t, nums) && Ends(rest) && AllRead(nums, strtod) && Depth(v) <= MAX_DEPTH
    ensures Parse(t + rest, strtod) == v
  {
    hide ValueAt, Padded, Depth, AllRead;
    var w := PaddedReads(v, t, rest, 0, strtod, nums);
  }
}
