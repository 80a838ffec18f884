/** c/strbuf.h and c/harness.h: the printer, appending to a growing buffer. */
module JsonPrinter {
  import opened JsonText
  import opened Json
  import opened JsonGrammar
  import opened JsonRoundTrip
  import opened JsonParser

  /** Str. */
  class Buffer {
    var p: string

    constructor ()
      ensures p == ""
    {
      p := "";
    }

    /** s_add and s_cat. */
    method Add(z: string)
      modifies this
      ensures p == old(p) + z
    {
      p := p + z;
    }

    /** The escape s_json writes for one byte. */
    method Escape(c: char)
      modifies this
      ensures p == old(p) + PieceText(PieceOf(c))
    {
      match c
      case '\"' => Add(['\\', '\"']);
      case '\\' => Add(['\\', '\\']);
      case '\n' => Add(['\\', 'n']);
      case '\r' => Add(['\\', 'r']);
      case '\t' => Add(['\\', 't']);
      case _ =>
        if c == Char(8) {
          Add(['\\', 'b']);
        } else if c == Char(12) {
          Add(['\\', 'f']);
        } else if c < ' ' {
          Add(['\\', 'u'] + ['0', '0', LowerHex(c as int / 16), LowerHex(c as int % 16)]);
        } else {
          Add([c]);
        }
    }

    /** s_json. */
    method JsonString(z: string)
      modifies this
      ensures p == old(p) + Quoted(z)
    {
      hide PieceText, PieceOf, Text, Pieces;
      Add("\"");
      PiecesNext(z, 0);
      for i := 0 to |z|
        invariant p == old(p) + "\"" + Text(Pieces(z[..i]))
      {
        PiecesNext(z, i);
        Escape(z[i]);
      }
      Add("\"");
      assert z[..|z|] == z;
    }

    /** j_emit. */
    method Emit(v: Value, general: real -> string)
      requires Shaped(v)
      modifies this
      ensures p == old(p) + Json.Emit(v, general)
      decreases v, 1
    {
      match v
      case Null => Add("null");
      case Bool(b) => Add(if b then "true" else "false");
      case Num(d) => Add(Number(d, general));
      case Str(s) => JsonString(s);
      case Arr(kids) => EmitArray(v, general);
      case Obj(keys, kids) => EmitObject(v, general);
    }

    /** The array branch of j_emit. */
    method EmitArray(v: Value, general: real -> string)
      requires v.Arr? && Shaped(v)
      modifies this
      ensures p == old(p) + Json.Emit(v, general)
      decreases v, 0
    {
      hide Shaped, AllShaped, Json.Emit, EmitItems, ItemsFrom;
      ArrayText(v, general);
      Add("[");
      ghost var all := p + EmitItems(v.kids, general);
      ItemsEnds(v.kids, general);
      for i := 0 to |v.kids|
        invariant p + ItemsFrom(v.kids, i, general) == all
      {
        ghost var was := p;
        ItemsNext(v.kids, i, general);
        if i > 0 {
          Add(",");
        }
        KidShaped(v.kids, i);
        Emit(v.kids[i], general);
        Reassociate(was, if i > 0 then "," else "", Json.Emit(v.kids[i], general), ItemsFrom(v.kids, i + 1, general));
      }
      assert p + "" == p;
      Add("]");
    }

    /** j_emit_obj. */
    method EmitObject(v: Value, general: real -> string)
      requires v.Obj? && Shaped(v)
      modifies this
      ensures p == old(p) + Json.Emit(v, general)
      decreases v, 0
    {
      hide Shaped, AllShaped, Json.Emit, EmitMembers, MembersFrom, Quoted;
      ObjectText(v, general);
      Add("{");
      ghost var all := p + EmitMembers(v.keys, v.kids, general);
      MembersEnds(v.keys, v.kids, general);
      for i := 0 to |v.kids|
        invariant p + MembersFrom(v.keys, v.kids, i, general) == all
      {
        ghost var was := p;
        MembersNext(v.keys, v.kids, i, general);
        if i > 0 {
          Add(",");
        }
        JsonString(v.keys[i]);
        Add(":");
        KidShaped(v.kids, i);
        Emit(v.kids[i], general);
        Reassociate(was, (if i > 0 then "," else "") + Quoted(v.keys[i]) + ":", Json.Emit(v.kids[i], general),
                MembersFrom(v.keys, v.kids, i + 1, general));
        assert p == was + ((if i > 0 then "," else "") + Quoted(v.keys[i]) + ":") + Json.Emit(v.kids[i], general);
      }
      assert p + "" == p;
      Add("}");
    }
  }

  lemma Reassociate(p: string, a: string, b: string, c: string)
    ensures p + a + b + c == p + (a + b + c)
    ensures a == "" ==> p + b + c == p + (a + b + c)
  {
  }

  lemma ArrayText(v: Value, general: real -> string)
    requires v.Arr? && Shaped(v)
    ensures Json.Emit(v, general) == "[" + EmitItems(v.kids, general) + "]" && AllShaped(v.kids)
  {
  }

  lemma ObjectText(v: Value, general: real -> string)
    requires v.Obj? && Shaped(v)
    ensures Json.Emit(v, general) == "{" + EmitMembers(v.keys, v.kids, general) + "}"
    ensures AllShaped(v.kids) && |v.keys| == |v.kids|
  {
  }

  lemma {:induction false} KidShaped(kids: seq<Value>, i: nat)
    requires AllShaped(kids) && i < |kids|
    ensures Shaped(kids[i])
  {
    if i > 0 {
      KidShaped(kids[1..], i - 1);
    }
  }

  lemma PiecesNext(z: string, i: nat)
    requires i <= |z|
    ensures i == 0 ==> Text(Pieces(z[..i])) == ""
    ensures i < |z| ==> Text(Pieces(z[..i + 1])) == Text(Pieces(z[..i])) + PieceText(PieceOf(z[i]))
  {
    if i < |z| {
      assert z[..i + 1] == z[..i] + [z[i]];
      PiecesPush(z[..i], z[i]);
    }
  }

  lemma {:induction false} PiecesPush(z: string, c: char)
    ensures Text(Pieces(z + [c])) == Text(Pieces(z)) + PieceText(PieceOf(c))
  {
    hide PieceText, PieceOf;
    if z == "" {
      assert z + [c] == [c] && [c][1..] == "";
    } else {
      assert (z + [c])[1..] == z[1..] + [c];
      PiecesPush(z[1..], c);
    }
  }

  /** The printed items from number i on, with the comma before them. */
  ghost function ItemsFrom(kids: seq<Value>, i: nat, general: real -> string): string
    requires i <= |kids|
  {
    if i == 0 then EmitItems(kids, general)
    else if i == |kids| then "" else "," + EmitItems(kids[i..], general)
  }

  lemma ItemsEnds(kids: seq<Value>, general: real -> string)
    ensures ItemsFrom(kids, 0, general) == EmitItems(kids, general)
    ensures ItemsFrom(kids, |kids|, general) == ""
  {
  }

  lemma ItemsNext(kids: seq<Value>, i: nat, general: real -> string)
    requires i < |kids|
    ensures ItemsFrom(kids, i, general) ==
            (if i > 0 then "," else "") + Json.Emit(kids[i], general) + ItemsFrom(kids, i + 1, general)
  {
    hide Json.Emit;
    assert kids[i..][1..] == kids[i + 1..];
  }

  ghost function MembersFrom(keys: seq<string>, kids: seq<Value>, i: nat, general: real -> string): string
    requires i <= |kids| == |keys|
  {
    if i == 0 then EmitMembers(keys, kids, general)
    else if i == |kids| then "" else "," + EmitMembers(keys[i..], kids[i..], general)
  }

  lemma MembersEnds(keys: seq<string>, kids: seq<Value>, general: real -> string)
    requires |keys| == |kids|
    ensures MembersFrom(keys, kids, 0, general) == EmitMembers(keys, kids, general)
    ensures MembersFrom(keys, kids, |kids|, general) == ""
  {
  }

  lemma MembersNext(keys: seq<string>, kids: seq<Value>, i: nat, general: real -> string)
    requires i < |kids| == |keys|
    ensures MembersFrom(keys, kids, i, general) ==
            (if i > 0 then "," else "") + Quoted(keys[i]) + ":" + Json.Emit(kids[i], general) +
            MembersFrom(keys, kids, i + 1, general)
  {
    hide Json.Emit, Quoted;
    assert kids[i..][1..] == kids[i + 1..] && keys[i..][1..] == keys[i + 1..];
  }

  // ---------------------------------------------------------------- printed text is a C string

  lemma EscapedClean(c: char)
    requires c != '\0'
    ensures '\0' !in PieceText(PieceOf(c))
  {
  }

  lemma {:induction false} TextClean(z: string)
    requires '\0' !in z
    ensures '\0' !in Text(Pieces(z))
  {
    hide PieceText, PieceOf;
    if z != "" {
      EscapedClean(z[0]);
      TextClean(z[1..]);
      assert Pieces(z)[1..] == Pieces(z[1..]);
    }
  }

  lemma {:induction false} PrintedClean(v: Value, general: real -> string, strtod: Strtod)
    requires Good(v, general, strtod)
    ensures '\0' !in Json.Emit(v, general)
    decreases v, 0
  {
    hide Decimal, Text, Pieces;
    match v
    case Num(d) => NumberIs(d, general);
    case Str(s) => TextClean(s);
    case Arr(kids) => ItemsClean(kids, general, strtod);
    case Obj(keys, kids) => MembersClean(keys, kids, general, strtod);
    case _ =>
  }

  lemma {:induction false} ItemsClean(kids: seq<Value>, general: real -> string, strtod: Strtod)
    requires AllGood(kids, general, strtod)
    ensures '\0' !in EmitItems(kids, general)
    decreases kids, 1
  {
    hide Good, Json.Emit;
    if kids != [] {
      PrintedClean(kids[0], general, strtod);
      ItemsClean(kids[1..], general, strtod);
    }
  }

  lemma {:induction false} MembersClean(keys: seq<string>, kids: seq<Value>, general: real -> string, strtod: Strtod)
    requires AllGood(kids, general, strtod) && |keys| == |kids| && forall i :: 0 <= i < |keys| ==> '\0' !in keys[i]
    ensures '\0' !in EmitMembers(keys, kids, general)
    decreases kids, 1
  {
    hide Good, Json.Emit, Text, Pieces;
    if kids != [] {
      TextClean(keys[0]);
      PrintedClean(kids[0], general, strtod);
      MembersClean(keys[1..], kids[1..], general, strtod);
    }
  }

  /** Printing into a buffer and parsing it: the value again. */
  method PrintAndParse(v: Value, general: real -> string, strtod: Strtod) returns (w: Value)
    requires Good(v, general, strtod)
    ensures w == v <==> Depth(v) <= MAX_DEPTH
  {
    hide Good, Shaped, Numbers, Json.Emit, Depth;
    GoodParts(v, general, strtod);
    PrintedClean(v, general, strtod);
    var out := new Buffer();
    out.Emit(v, general);
    assert out.p == Json.Emit(v, general);
    w := JsonParse(out.p, strtod);
    RoundTripIff(v, general, strtod);
  }
}
