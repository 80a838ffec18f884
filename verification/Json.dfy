/** c/json.h and c/harness.h: JSON values, what the parser reads, what the printer writes. */
module Json {
  import opened JsonText

  /** jval. Strings and keys are C strings; an object's keys and kids run in parallel. */
  datatype Value =
    | Null
    | Bool(b: bool)
    | Num(d: real)
    | Str(s: string)
    | Arr(kids: seq<Value>)
    | Obj(keys: seq<string>, kids: seq<Value>)

  /** A parsed value and the text behind it. */
  datatype Parsed = Parsed(v: Value, rest: string)

  /** strtod: the number at the front of a text, and how many characters it takes. */
  type Strtod = f: string -> (real, nat) | forall s: string :: f(s).1 <= |s| witness s => (0.0, 0)

  /** The nesting limit of the parser. */
  const MAX_DEPTH: nat := 1024

  // ---------------------------------------------------------------- what the parser reads

  function NumberAt(s: string, strtod: Strtod): (p: Parsed)
    ensures |p.rest| <= |s|
  {
    var (d, n) := strtod(s);
    Parsed(Num(d), s[n..])
  }

  function StringAt(s: string): (p: (string, string))
    requires s != "" && s[0] == '\"'
    ensures |p.1| < |s|
  {
    var (b, rest) := Body(s[1..]);
    (CString(b), rest)
  }

  predicate Starts(s: string, c: char) { s != "" && s[0] == c }

  /** A keyword or a number. */
  function WordAt(t: string, strtod: Strtod): (p: Parsed)
    ensures |p.rest| <= |t|
  {
    if "true" <= t then Parsed(Bool(true), t[4..])
    else if "false" <= t then Parsed(Bool(false), t[5..])
    else if "null" <= t then Parsed(Null, t[4..])
    else NumberAt(t, strtod)
  }

  /** j_parse_val on the text s at a nesting depth. */
  function ValueAt(s: string, depth: nat, strtod: Strtod): (p: Parsed)
    ensures |p.rest| <= |s|
    decreases |s|, 0
  {
    var t := SkipSpace(s);
    if Starts(t, '\"') then
      var (z, rest) := StringAt(t);
      Parsed(Str(z), rest)
    else if Starts(t, '{') then
      if depth + 1 > MAX_DEPTH then Parsed(Null, t) else ObjectAt(t[1..], depth + 1, strtod)
    else if Starts(t, '[') then
      if depth + 1 > MAX_DEPTH then Parsed(Null, t) else ArrayAt(t[1..], depth + 1, strtod)
    else WordAt(t, strtod)
  }

  /** Behind the opening bracket. */
  function ArrayAt(s: string, depth: nat, strtod: Strtod): (p: Parsed)
    ensures |p.rest| <= |s|
    decreases |s|, 2
  {
    var t := SkipSpace(s);
    if Starts(t, ']') then Parsed(Arr([]), t[1..]) else ElementsAt(t, depth, strtod, [])
  }

  /** The loop over array elements, with those already read. */
  function ElementsAt(s: string, depth: nat, strtod: Strtod, kids: seq<Value>): (p: Parsed)
    ensures |p.rest| <= |s|
    decreases |s|, 1
  {
    var p := ValueAt(s, depth, strtod);
    var t := SkipSpace(p.rest);
    if Starts(t, ',') then ElementsAt(t[1..], depth, strtod, kids + [p.v])
    else Parsed(Arr(kids + [p.v]), if Starts(t, ']') then t[1..] else t)
  }

  /** Behind the opening brace. */
  function ObjectAt(s: string, depth: nat, strtod: Strtod): (p: Parsed)
    ensures |p.rest| <= |s|
    decreases |s|, 2
  {
    var t := SkipSpace(s);
    if Starts(t, '}') then Parsed(Obj([], []), t[1..]) else MembersAt(t, depth, strtod, [], [])
  }

  /** What stands behind a key: white space and at most one colon. */
  function AfterColon(s: string): (t: string)
    ensures |t| <= |s|
  {
    var u := SkipSpace(s);
    if Starts(u, ':') then u[1..] else u
  }

  /** The loop over object members, with those already read. */
  function MembersAt(s: string, depth: nat, strtod: Strtod, keys: seq<string>, kids: seq<Value>): (p: Parsed)
    ensures |p.rest| <= |s|
    decreases |s|, 1
  {
    var t := SkipSpace(s);
    if !Starts(t, '\"') then Parsed(Obj(keys, kids), t)
    else
      var (key, rest) := StringAt(t);
      var p := ValueAt(AfterColon(rest), depth, strtod);
      var u := SkipSpace(p.rest);
      if Starts(u, ',') then MembersAt(u[1..], depth, strtod, keys + [key], kids + [p.v])
      else Parsed(Obj(keys + [key], kids + [p.v]), if Starts(u, '}') then u[1..] else u)
  }

  /** json_parse. */
  function Parse(text: string, strtod: Strtod): Value {
    ValueAt(text, 0, strtod).v
  }

  // ---------------------------------------------------------------- what the printer writes

  function DigitChar(d: nat): char
    requires d < 10
  {
    ('0' as int + d) as char
  }

  function Digits(n: nat): (t: string)
    ensures t != "" && '0' <= t[0] <= '9'
  {
    if n < 10 then [DigitChar(n)] else Digits(n / 10) + [DigitChar(n % 10)]
  }

  /** %lld. */
  function Decimal(n: int): string {
    if n < 0 then "-" + Digits(-n) else Digits(n)
  }

  /** A number: whole ones as integers, others as general (%.17g) prints them. */
  function Number(d: real, general: real -> string): string {
    if d == d.Floor as real then Decimal(d.Floor) else general(d)
  }

  /** j_emit. */
  function Emit(v: Value, general: real -> string): string
    decreases v
  {
    match v
    case Null => "null"
    case Bool(b) => if b then "true" else "false"
    case Num(d) => Number(d, general)
    case Str(s) => Quoted(s)
    case Arr(kids) => "[" + EmitItems(kids, general) + "]"
    case Obj(keys, kids) => "{" + EmitMembers(keys, kids, general) + "}"
  }

  function EmitItems(kids: seq<Value>, general: real -> string): string
    decreases kids
  {
    if kids == [] then ""
    else Emit(kids[0], general) + (if |kids| > 1 then "," + EmitItems(kids[1..], general) else "")
  }

  function EmitMembers(keys: seq<string>, kids: seq<Value>, general: real -> string): string
    decreases kids
  {
    if kids == [] || keys == [] then ""
    else
      Quoted(keys[0]) + ":" + Emit(kids[0], general) +
      (if |kids| > 1 && |keys| > 1 then "," + EmitMembers(keys[1..], kids[1..], general) else "")
  }
}
