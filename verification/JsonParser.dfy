/** c/json.h: the recursive-descent parser, stepping through its text. */
module JsonParser {
  import opened JsonText
  import opened Json
  import opened Wrappers

  /** jparser. The text is what stands before the terminating NUL. */
  class Parser {
    const text: string
    const strtod: Strtod
    var pos: nat
    var depth: nat

    ghost predicate Valid()
      reads this
    {
      pos <= |text| && '\0' !in text
    }

    /** The text still to be read. */
    ghost function Left(): string
      reads this
      requires Valid()
    {
      text[pos..]
    }

    /** p->s[k] */
    function Peek(k: nat): (c: char)
      reads this
      requires Valid()
      ensures c != '\0' <==> k < |Left()|
      ensures c != '\0' ==> c == Left()[k]
    {
      if pos + k < |text| then text[pos + k] else '\0'
    }

    constructor (text: string, strtod: Strtod)
      requires '\0' !in text
      ensures Valid() && this.text == text && this.strtod == strtod && pos == 0 && depth == 0
    {
      this.text, this.strtod := text, strtod;
      pos, depth := 0, 0;
    }

    method Advance(n: nat)
      requires Valid() && n <= |Left()|
      modifies this`pos
      ensures Valid() && pos == old(pos) + n && Left() == old(Left())[n..]
    {
      pos := pos + n;
    }

    /** j_ws. */
    method Ws()
      requires Valid()
      modifies this`pos
      ensures Valid() && pos >= old(pos) && Left() == SkipSpace(old(Left()))
    {
      while Peek(0) != '\0' && IsSpace(Peek(0))
        invariant Valid() && pos >= old(pos) && SkipSpace(Left()) == SkipSpace(old(Left()))
        decreases |text| - pos
      {
        Advance(1);
      }
    }

    /** The part of j_parse_str_raw behind a \u: what is put for it. */
    method Unicode() returns (b: string)
      requires Valid() && |Left()| >= 2
      modifies this`pos
      ensures Valid() && (b, pos - old(pos)) == UnicodeUnit(old(Left()))
    {
      ghost var s := Left();
      Advance(2);
      if Peek(0) == '\0' || Peek(1) == '\0' || Peek(2) == '\0' || Peek(3) == '\0' {
        return "?";
      }
      var cp := Strtoul([Peek(0), Peek(1), Peek(2), Peek(3)]);
      assert s[2..6] == [Peek(0), Peek(1), Peek(2), Peek(3)];
      Advance(4);
      if 0xD800 <= cp <= 0xDBFF && Peek(0) == '\\' && Peek(1) == 'u' &&
         Peek(2) != '\0' && Peek(3) != '\0' && Peek(4) != '\0' && Peek(5) != '\0' {
        var lo := Strtoul([Peek(2), Peek(3), Peek(4), Peek(5)]);
        assert s[8..12] == [Peek(2), Peek(3), Peek(4), Peek(5)];
        if 0xDC00 <= lo <= 0xDFFF {
          cp := 0x10000 + (cp - 0xD800) * 1024 + (lo - 0xDC00);
          Advance(6);
        }
      }
      b := Utf8(cp);
    }

    /** One turn of the reading loop of j_parse_str_raw. */
    method Put() returns (b: string)
      requires Valid() && Left() != "" && Left()[0] != '\"'
      modifies this`pos
      ensures Valid() && (b, pos - old(pos)) == Unit(old(Left()))
    {
      hide UnicodeUnit;
      var c := Peek(0);
      if c == '\\' && Peek(1) != '\0' {
        var e := Peek(1);
        if e == 'u' {
          b := Unicode();
        } else {
          Advance(2);
          b := [ShortEscape(e)];
        }
      } else {
        Advance(1);
        b := [c];
      }
    }

    /** j_parse_str_raw: nothing at all unless it stands at a quote. */
    method StringRaw() returns (z: string)
      requires Valid()
      modifies this`pos
      ensures Valid() && pos >= old(pos)
      ensures if Starts(old(Left()), '\"') then (z, Left()) == StringAt(old(Left())) else z == "" && pos == old(pos)
    {
      hide Unit;
      if Peek(0) != '\"' {
        return "";
      }
      Advance(1);
      ghost var start := Left();
      var tmp := "";
      assert "" + Body(start).0 == Body(start).0;
      while Peek(0) != '\0' && Peek(0) != '\"'
        invariant Valid() && pos > old(pos)
        invariant Body(start) == (tmp + Body(Left()).0, Body(Left()).1)
        decreases |text| - pos
      {
        ghost var s := Left();
        BodyStep(s);
        var b := Put();
        assert Left() == s[Unit(s).1..];
        assert tmp + (b + Body(Left()).0) == tmp + b + Body(Left()).0;
        tmp := tmp + b;
      }
      BodyEnd(Left());
      if Peek(0) == '\"' {
        Advance(1);
      }
      assert tmp + "" == tmp;
      z := CString(tmp);
    }

    /** j_parse_val. */
    method Value() returns (v: Value)
      requires Valid()
      modifies this`pos, this`depth
      ensures Valid() && depth == old(depth) && pos >= old(pos)
      ensures Parsed(v, Left()) == ValueAt(old(Left()), depth, strtod)
      decreases |text| - pos, 0
    {
      hide ObjectAt, ArrayAt, WordAt, StringAt, SkipSpace;
      Ws();
      var c := Peek(0);
      if c == '\"' {
        var z := StringRaw();
        return Str(z);
      }
      if c == '{' || c == '[' {
        depth := depth + 1;
        if depth > MAX_DEPTH {
          depth := depth - 1;
          return Null;
        }
        Advance(1);
        if c == '{' {
          v := Object();
        } else {
          v := Array();
        }
        depth := depth - 1;
        return;
      }
      v := Word();
    }

    /** The part of j_parse_val for keywords and numbers. */
    method Word() returns (v: Value)
      requires Valid()
      modifies this`pos
      ensures Valid() && pos >= old(pos) && Parsed(v, Left()) == WordAt(old(Left()), strtod)
    {
      if "true" <= text[pos..] {
        Advance(4);
        return Bool(true);
      }
      if "false" <= text[pos..] {
        Advance(5);
        return Bool(false);
      }
      if "null" <= text[pos..] {
        Advance(4);
        return Null;
      }
      var d, n := strtod(text[pos..]).0, strtod(text[pos..]).1;
      Advance(n);
      v := Num(d);
    }

    /** The part of j_parse_val behind an opening bracket. */
    method Array() returns (v: Value)
      requires Valid()
      modifies this`pos, this`depth
      ensures Valid() && depth == old(depth) && pos >= old(pos)
      ensures Parsed(v, Left()) == ArrayAt(old(Left()), depth, strtod)
      decreases |text| - pos, 1
    {
      hide ValueAt, ElementsAt, SkipSpace;
      ghost var start := Left();
      Ws();
      if Peek(0) == ']' {
        Advance(1);
        return Arr([]);
      }
      var kids: seq<Value> := [];
      while true
        invariant Valid() && depth == old(depth) && pos >= old(pos)
        invariant ElementsAt(Left(), depth, strtod, kids) == ArrayAt(start, depth, strtod)
        decreases |text| - pos
      {
        ElementsStep(Left(), depth, strtod, kids);
        var val := Value();
        kids := kids + [val];
        Ws();
        if Peek(0) == ',' {
          Advance(1);
          continue;
        }
        if Peek(0) == ']' {
          Advance(1);
        }
        break;
      }
      v := Arr(kids);
    }

    /** The part of j_parse_val behind an opening brace. */
    method Object() returns (v: Value)
      requires Valid()
      modifies this`pos, this`depth
      ensures Valid() && depth == old(depth) && pos >= old(pos)
      ensures Parsed(v, Left()) == ObjectAt(old(Left()), depth, strtod)
      decreases |text| - pos, 1
    {
      hide ValueAt, MembersAt, SkipSpace, StringAt, AfterColon;
      ghost var start := Left();
      Ws();
      if Peek(0) == '}' {
        Advance(1);
        return Obj([], []);
      }
      var keys: seq<string>, kids: seq<Value> := [], [];
      while true
        invariant Valid() && depth == old(depth) && pos >= old(pos)
        invariant MembersAt(Left(), depth, strtod, keys, kids) == ObjectAt(start, depth, strtod)
        decreases |text| - pos
      {
        MembersStep(Left(), depth, strtod, keys, kids);
        Ws();
        if Peek(0) != '\"' {
          break;
        }
        var key := StringRaw();
        Colon();
        var val := Value();
        keys, kids := keys + [key], kids + [val];
        Ws();
        if Peek(0) == ',' {
          Advance(1);
          continue;
        }
        if Peek(0) == '}' {
          Advance(1);
        }
        break;
      }
      v := Obj(keys, kids);
    }

    /** White space and a colon, if there is one. */
    method Colon()
      requires Valid()
      modifies this`pos
      ensures Valid() && pos >= old(pos) && Left() == AfterColon(old(Left()))
    {
      Ws();
      if Peek(0) == ':' {
        Advance(1);
      }
    }
  }

  lemma BodyStep(s: string)
    requires s != "" && s[0] != '\"'
    ensures Body(s) == (Unit(s).0 + Body(s[Unit(s).1..]).0, Body(s[Unit(s).1..]).1)
  {
  }

  lemma BodyEnd(s: string)
    requires s == "" || s[0] == '\"'
    ensures Body(s) == ("", if s == "" then "" else s[1..])
  {
  }

  lemma ElementsStep(s: string, depth: nat, strtod: Strtod, kids: seq<Value>)
    ensures var p := ValueAt(s, depth, strtod);
            var t := SkipSpace(p.rest);
            ElementsAt(s, depth, strtod, kids) ==
            if Starts(t, ',') then ElementsAt(t[1..], depth, strtod, kids + [p.v])
            else Parsed(Arr(kids + [p.v]), if Starts(t, ']') then t[1..] else t)
  {
  }

  lemma MembersStep(s: string, depth: nat, strtod: Strtod, keys: seq<string>, kids: seq<Value>)
    ensures var t := SkipSpace(s);
            if !Starts(t, '\"') then MembersAt(s, depth, strtod, keys, kids) == Parsed(Obj(keys, kids), t)
            else
              var (key, rest) := StringAt(t);
              var p := ValueAt(AfterColon(rest), depth, strtod);
              var u := SkipSpace(p.rest);
              MembersAt(s, depth, strtod, keys, kids) ==
              if Starts(u, ',') then MembersAt(u[1..], depth, strtod, keys + [key], kids + [p.v])
              else Parsed(Obj(keys + [key], kids + [p.v]), if Starts(u, '}') then u[1..] else u)
  {
  }

  /** json_parse. */
  method JsonParse(text: string, strtod: Strtod) returns (v: Value)
    requires '\0' !in text
    ensures v == Parse(text, strtod)
  {
    var p := new Parser(text, strtod);
    assert text[0..] == text;
    v := p.Value();
  }

  /** json_get: the kid under the first key that equals the one asked for. */
  method JsonGet(o: Value, key: string) returns (r: Option<Value>)
    requires o.Obj? ==> |o.keys| == |o.kids|
    ensures r.None? <==> !o.Obj? || key !in o.keys
    ensures r.Some? ==> exists i: nat :: i < |o.keys| && o.keys[i] == key && key !in o.keys[..i] && r.value == o.kids[i]
  {
    if !o.Obj? {
      return None;
    }
    for i := 0 to |o.kids|
      invariant key !in o.keys[..i]
    {
      if o.keys[i] == key {
        return Some(o.kids[i]);
      }
    }
    r := None;
  }
}
