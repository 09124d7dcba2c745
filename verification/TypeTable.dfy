/** The basic types of the D-Bus Specification (section "Type System"), and that everything
    written and read is of the type that its code announces. */
module TypeTable {
  import opened Wrappers
  import opened DbusTypes
  import opened DbusValues
  import opened Wire
  import opened Codec
  import opened Transfer
  import opened Choice
  import opened Typing

  /** The values of the type with a given code. */
  predicate Fits(code: char, p: Payload) {
    match p
    case Num(n) =>
      || (code == 'y' && 0 <= n <= 255)
      || (code == 'b' && (n == 0 || n == 1))
      || (code == 'n' && -32768 <= n <= 32767)
      || (code == 'q' && 0 <= n <= 65535)
      || ((code == 'i' || code == 'h') && -2147483648 <= n <= 2147483647)
      || (code == 'u' && 0 <= n <= 4294967295)
      || (code == 'x' && -9223372036854775808 <= n <= 9223372036854775807)
      || (code == 't' && 0 <= n <= 18446744073709551615)
    case Real(_) => code == 'd'
    case Text(s) => (code == 's' || code == 'o' || code == 'g') && '\0' !in s
  }

  predicate TokenFits(tok: Token) {
    match tok
    case Item(code, p) => Fits(code, p)
    case Open(kind, contents) =>
      (kind == 'a' || kind == 'r' || kind == 'e' || kind == 'v') && '\0' !in contents
    case Close => true
  }

  predicate AllFit(s: seq<Token>) {
    forall tok | tok in s :: TokenFits(tok)
  }

  /** The codes one by one. */
  lemma CodesAre()
    ensures [Code(Byte), Code(Boolean), Code(Int16), Code(UInt16), Code(Int32), Code(UInt32), Code(Int64),
             Code(UInt64), Code(Double), Code(ObjectPath), Code(Signature), Code(UnixFd)] == "ybnqiuxtdogh"
  {
  }

  /** A number has a C++ type exactly when it is a value of the D-Bus type with its code. */
  lemma RangeIs(b: Basic, n: int)
    requires !b.Boolean?
    ensures BasicHasType(b, VPrim(Num(n))) <==> Fits(Code(b), Num(n))
  {
  }

  function Values(bytes: nat): nat {
    if bytes == 0 then 1 else 256 * Values(bytes - 1)
  }

  /** The element types of the bulk calls are those of fixed width that are no booleans and no
      descriptors, and the width is that of their range. */
  lemma WidthIs(b: Basic) returns (least: int)
    ensures Width(b) == 0 <==> b.Boolean? || b.UnixFd? || b.ObjectPath? || b.Signature?
    ensures b.Double? ==> Width(b) == 8
    ensures Width(b) > 0 && !b.Double? ==> forall n :: InRange(b, n) <==> least <= n < least + Values(Width(b))
  {
    assert Values(1) == 0x100 && Values(2) == 0x1_0000;
    assert Values(4) == 0x1_0000_0000 && Values(8) == 0x1_0000_0000_0000_0000;
    least := match b
      case Int16 => -0x8000
      case Int32 => -0x8000_0000
      case Int64 => -0x8000_0000_0000_0000
      case _ => 0;
  }

  lemma PayloadFits(b: Basic, v: Val)
    requires BasicHasType(b, v)
    ensures Fits(Code(b), ToPayload(b, v))
  {
    if v.VPrim? && v.p.Text? {
      CStringWhole(v.p.s);
    }
  }

  lemma TextFits(t: Ty, v: Val)
    ensures Fits('s', Text(TextOf(t, v)))
  {
    CStringOfText(t, v);
    CStringWhole(TextOf(t, v));
  }

  lemma FitsConcat(s: seq<Token>, t: seq<Token>)
    ensures AllFit(s + t) <==> AllFit(s) && AllFit(t)
  {
    assert forall tok | tok in s :: tok in s + t;
    assert forall tok | tok in t :: tok in s + t;
  }

  lemma BlockFits(open: Token, body: seq<Token>)
    requires TokenFits(open) && AllFit(body)
    ensures AllFit([open] + body + [Close])
  {
  }

  // ---------------------------------------------------------------- what is written

  /** Every item that `append` writes is a value of the D-Bus type with its code. */
  lemma {:induction false} EncodeFits(t: Ty, v: Val)
    requires HasType(t, v)
    ensures AllFit(Encode(t, v))
    decreases t, 0
  {
    match t {
      case Prim(b) => PayloadFits(b, v);
      case Str | Enum(_) => TextFits(t, v);
      case Array(_, elem) =>
        EncodeElemsFit(elem, v.elems);
        CStringWhole(Sig(elem));
        BlockFits(Open(ARRAY, CString(Sig(elem))), EncodeElems(elem, v.elems));
      case Record(pair, fields) =>
        EncodeAllFit(fields, v.members);
        CStringWhole(SigAll(fields));
        BlockFits(Open(RecordKind(pair), CString(SigAll(fields))), EncodeAll(fields, v.members));
      case Variant(alts) =>
        var own := alts[v.index];
        EncodeFits(own, v.held);
        CStringWhole(Sig(own));
        BlockFits(Open(VARIANT, CString(Sig(own))), Encode(own, v.held));
      case Monostate =>
    }
  }

  lemma {:induction false} EncodeElemsFit(elem: Ty, xs: seq<Val>)
    requires forall x | x in xs :: HasType(elem, x)
    ensures AllFit(EncodeElems(elem, xs))
    decreases elem, 1, xs
  {
    if xs != [] {
      EncodeFits(elem, xs[0]);
      EncodeElemsFit(elem, xs[1..]);
      FitsConcat(Encode(elem, xs[0]), EncodeElems(elem, xs[1..]));
    }
  }

  lemma {:induction false} EncodeAllFit(ts: seq<Ty>, vs: seq<Val>)
    requires HasTypes(ts, vs)
    ensures AllFit(EncodeAll(ts, vs))
    decreases ts, 1
  {
    if ts != [] {
      EncodeFits(ts[0], vs[0]);
      EncodeAllFit(ts[1..], vs[1..]);
      FitsConcat(Encode(ts[0], vs[0]), EncodeAll(ts[1..], vs[1..]));
    }
  }

  // ---------------------------------------------------------------- what is read

  lemma TailFits(s: seq<Token>, n: nat)
    requires AllFit(s) && n <= |s|
    ensures AllFit(s[n..])
  {
    assert forall tok | tok in s[n..] :: tok in s;
  }

  /** Whatever is read, from any message of well-formed items and into any destination, is a
      value of the destination's type. */
  lemma {:induction false} ParseTyped(t: Ty, dest: Val, s: seq<Token>)
    requires (t.Monostate? || Wf(t)) && HasType(t, dest) && AllFit(s)
    ensures var r := Parse(t, dest, s); r.Ok? ==> HasType(t, r.value) && AllFit(r.rest)
    decreases t, 0
  {
    if s != [] {
      TailFits(s, 1);
      match t {
        case Prim(b) =>
          if s[0].Item? && s[0].code == Code(b) {
            assert TokenFits(s[0]);
            ReadFits(b, s[0].payload);
          }
        case Str =>
        case Enum(_) =>
        case Array(kind, elem) =>
          ParseElemsTyped(kind, elem, dest.elems, s[1..]);
          ExitTyped(s[1..], ParseElems(kind, elem, dest.elems, s[1..]));
        case Record(_, fields) =>
          assert |dest.members| == |fields|;
          ParseAllTyped(fields, dest.members, s[1..]);
          ExitTyped(s[1..], ParseAll(fields, dest.members, s[1..]));
        case Variant(alts) => ParseVariantTyped(alts, dest, s);
        case Monostate =>
      }
    }
  }

  lemma ReadFits(b: Basic, p: Payload)
    requires Fits(Code(b), p)
    ensures BasicHasType(b, FromPayload(b, p))
  {
  }

  /** A boolean is read as true for every number but zero. */
  lemma BooleanIsNonzero(dest: Val, n: int, rest: seq<Token>)
    ensures Parse(Prim(Boolean), dest, [Item('b', Num(n))] + rest) == Ok(VBool(n != 0), rest)
  {
    assert ([Item('b', Num(n))] + rest)[1..] == rest;
  }

  lemma ExitTyped(s: seq<Token>, p: Parsed<seq<Val>>)
    requires p.Ok? ==> AllFit(p.rest)
    ensures p.Ok? && p.rest != [] ==> AllFit(p.rest[1..])
  {
    if p.Ok? && p.rest != [] {
      TailFits(p.rest, 1);
    }
  }

  lemma {:induction false} ParseElemsTyped(kind: Container, elem: Ty, acc: seq<Val>, s: seq<Token>)
    requires Wf(elem) && AllFit(s) && Sorted(kind, acc) && forall a | a in acc :: HasType(elem, a)
    ensures var r := ParseElems(kind, elem, acc, s);
            r.Ok? ==> Sorted(kind, r.value) && (forall x | x in r.value :: HasType(elem, x)) && AllFit(r.rest)
    decreases elem, 1, |s|
  {
    if !AtEnd(s) {
      DefaultTyped(elem);
      ParseTyped(elem, Default(elem), s);
      var r := Parse(elem, Default(elem), s);
      if r.Ok? && |r.rest| < |s| {
        InsertSorted(kind, acc, r.value);
        InsertMembers(kind, acc, r.value);
        ParseElemsTyped(kind, elem, Insert(kind, acc, r.value), r.rest);
      }
    }
  }

  lemma {:induction false} ParseAllTyped(ts: seq<Ty>, dests: seq<Val>, s: seq<Token>)
    requires (forall t | t in ts :: Wf(t)) && HasTypes(ts, dests) && AllFit(s)
    ensures var r := ParseAll(ts, dests, s); r.Ok? ==> HasTypes(ts, r.value) && AllFit(r.rest)
    decreases ts, 1
  {
    if ts != [] {
      ParseTyped(ts[0], dests[0], s);
      var r := Parse(ts[0], dests[0], s);
      if r.Ok? {
        ParseAllTyped(ts[1..], dests[1..], r.rest);
        var q := ParseAll(ts[1..], dests[1..], r.rest);
        assert q.Ok? ==> ([r.value] + q.value)[1..] == q.value;
      }
    }
  }

  lemma {:induction false} ParseVariantTyped(alts: seq<Ty>, dest: Val, s: seq<Token>)
    requires Wf(Variant(alts)) && AllFit(s) && s != []
    ensures var r := Parse(Variant(alts), dest, s); r.Ok? ==> HasType(Variant(alts), r.value) && AllFit(r.rest)
    decreases alts, 2
  {
    if s[0].Open? && s[0].kind == VARIANT {
      TailFits(s, 1);
      var body, m := s[1..], FirstMatch(alts, 0, s[0].contents);
      if m.None? {
        DefaultTyped(Variant(alts));
        PastSuffix(body, 1);
        if Past(body, 1).Some? {
          TailFits(body, |body| - |Past(body, 1).value|);
        }
      } else if ConvertsFromString(alts[m.value]) {
        if ParseText(body).Ok? {
          TextVariantTyped(alts, body);
        }
      } else {
        var own := alts[m.value];
        assert own in alts;
        DefaultTyped(own);
        ParseTyped(own, Default(own), body);
        var r := Parse(own, Default(own), body);
        if r.Ok? && r.rest != [] {
          TailFits(r.rest, 1);
        }
      }
    }
  }

  lemma TextVariantTyped(alts: seq<Ty>, body: seq<Token>)
    requires Wf(Variant(alts)) && AllFit(body) && ParseText(body).Ok?
    ensures var p := ParseText(body);
            && AllFit(p.rest) && (p.rest != [] ==> AllFit(p.rest[1..]))
            && (Process(alts, 0, p.value).Some? ==> HasType(Variant(alts), Process(alts, 0, p.value).value))
  {
    TailFits(body, 1);
    var p := ParseText(body);
    if p.rest != [] {
      TailFits(p.rest, 1);
    }
    if Process(alts, 0, p.value).Some? {
      ProcessTyped(alts, p.value);
    }
  }
}
