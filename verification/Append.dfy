/** The append templates of include/sdbusplus/message/append.hpp, writing into a message. */
module Append {
  import opened DbusTypes
  import opened DbusValues
  import opened Wire
  import opened Codec

  /** Elements that are contiguous in memory and of a type that the bulk call takes. */
  predicate Contiguous(kind: Container, elem: Ty) {
    kind.Vector? && elem.Prim? && Width(elem.basic) > 0
  }

  /** The bulk calls serve vectors of the basic types of fixed width without booleans and
      descriptors. */
  lemma ContiguousIs(kind: Container, elem: Ty)
    ensures Contiguous(kind, elem) <==> kind.Vector? && elem.Prim? && Code(elem.basic) in "ynqiuxtd"
  {
    if elem.Prim? {
      assert forall c | c in "ynqiuxtd" :: c != 'b' && c != 'h' && c != 'o' && c != 'g';
      var i := match elem.basic
        case Byte => 0
        case Int16 => 1
        case UInt16 => 2
        case Int32 => 3
        case UInt32 => 4
        case Int64 => 5
        case UInt64 => 6
        case _ => 7;
      assert "ynqiuxtd"[i] in "ynqiuxtd";
    }
  }

  function PayloadsOf(b: Basic, xs: seq<Val>): (data: seq<Payload>)
    ensures |data| == |xs|
  {
    seq(|xs|, i requires 0 <= i < |xs| => ToPayload(b, xs[i]))
  }

  /** The bulk call writes what the element loop would write. */
  lemma {:induction false} BulkIsLoop(b: Basic, xs: seq<Val>)
    ensures Items(Code(b), PayloadsOf(b, xs)) == EncodeElems(Prim(b), xs)
  {
    if xs != [] {
      BulkIsLoop(b, xs[1..]);
      var items := Items(Code(b), PayloadsOf(b, xs));
      assert items[1..] == Items(Code(b), PayloadsOf(b, xs[1..]));
      assert items == [items[0]] + items[1..];
    }
  }

  /** `append_single<T>::op`.  It throws, after writing part of the value, exactly when an
      enum value has no name; for monostate there is no operation at all. */
  method AppendSingle(m: SdBusMessage, t: Ty, v: Val) returns (ok: bool)
    requires HasType(t, v)
    modifies m`tokens, m`containers
    ensures ok <==> Named(t, v)
    ensures ok ==> m.tokens == old(m.tokens) + Encode(t, v) && m.containers == old(m.containers)
    decreases t, 0
  {
    match t
    case Prim(b) =>
      m.AppendBasic(Code(b), ToPayload(b, v));
      ok := true;
    case Str =>
      m.AppendBasic('s', Text(CString(v.p.s)));
      ok := true;
    case Enum(mapping) =>
      var i := FindValue(mapping, v.n);
      if i == |mapping| {
        return false;
      }
      m.AppendBasic('s', Text(CString(mapping[i].name)));
      ok := true;
    case Array(kind, elem) =>
      if Contiguous(kind, elem) {
        AppendBulk(m, elem.basic, v.elems);
        ok := true;
      } else {
        ok := AppendElements(m, elem, v.elems);
      }
    case Record(pair, fields) =>
      ok := AppendRecord(m, pair, fields, v.members);
    case Variant(alts) =>
      ok := AppendVariant(m, alts, v.index, v.held);
    case Monostate =>
      ok := false;
  }

  method AppendRecord(m: SdBusMessage, pair: bool, fields: seq<Ty>, vs: seq<Val>) returns (ok: bool)
    requires HasTypes(fields, vs)
    modifies m`tokens, m`containers
    ensures ok <==> AllNamed(fields, vs)
    ensures ok ==>
              && m.tokens == old(m.tokens) + ([Open(RecordKind(pair), CString(SigAll(fields)))] + EncodeAll(fields, vs)
                                              + [Close])
              && m.containers == old(m.containers)
    decreases fields, 2
  {
    m.OpenContainer(RecordKind(pair), SigAll(fields));
    ghost var front := m.tokens;
    ok := AppendArgs(m, fields, vs);
    if ok {
      assert m.tokens == front + EncodeAll(fields, vs);
      m.CloseContainer();
    }
  }

  method AppendVariant(m: SdBusMessage, alts: seq<Ty>, i: nat, held: Val) returns (ok: bool)
    requires i < |alts| && HasType(alts[i], held)
    modifies m`tokens, m`containers
    ensures ok <==> Named(alts[i], held)
    ensures ok ==>
              && m.tokens == old(m.tokens) + ([Open(VARIANT, CString(Sig(alts[i])))] + Encode(alts[i], held) + [Close])
              && m.containers == old(m.containers)
    decreases alts, 0
  {
    m.OpenContainer(VARIANT, Sig(alts[i]));
    ghost var front := m.tokens;
    ok := AppendSingle(m, alts[i], held);
    if ok {
      assert m.tokens == front + Encode(alts[i], held);
      m.CloseContainer();
    }
  }

  method AppendBulk(m: SdBusMessage, b: Basic, xs: seq<Val>)
    requires Width(b) > 0
    modifies m`tokens
    ensures m.tokens == old(m.tokens) + Encode(Array(Vector, Prim(b)), VArray(xs))
  {
    var data := PayloadsOf(b, xs);
    m.AppendArray(b, data, |data| * Width(b));
    BulkIsLoop(b, xs);
    assert CString(Sig(Prim(b))) == [Code(b)];
  }

  method AppendElements(m: SdBusMessage, elem: Ty, xs: seq<Val>) returns (ok: bool)
    requires forall x | x in xs :: HasType(elem, x)
    modifies m`tokens, m`containers
    ensures ok <==> forall x | x in xs :: Named(elem, x)
    ensures ok ==>
              && m.tokens == old(m.tokens) + ([Open(ARRAY, CString(Sig(elem)))] + EncodeElems(elem, xs) + [Close])
              && m.containers == old(m.containers)
    decreases elem, 1
  {
    m.OpenContainer(ARRAY, Sig(elem));
    ghost var front := m.tokens;
    for i := 0 to |xs|
      invariant forall k | 0 <= k < i :: Named(elem, xs[k])
      invariant m.tokens + EncodeElems(elem, xs[i..]) == front + EncodeElems(elem, xs)
      invariant m.containers == old(m.containers) + [ARRAY]
    {
      assert xs[i..][0] == xs[i] && xs[i..][1..] == xs[i + 1..];
      ghost var before := m.tokens;
      ok := AppendSingle(m, elem, xs[i]);
      if !ok {
        return;
      }
      Regroup(before, Encode(elem, xs[i]), EncodeElems(elem, xs[i + 1..]));
    }
    assert m.tokens + [] == m.tokens;
    m.CloseContainer();
    ok := true;
  }

  lemma Regroup(a: seq<Token>, b: seq<Token>, c: seq<Token>)
    ensures a + (b + c) == a + b + c
  {
  }

  /** The variadic `append`. */
  method AppendArgs(m: SdBusMessage, ts: seq<Ty>, vs: seq<Val>) returns (ok: bool)
    requires HasTypes(ts, vs)
    modifies m`tokens, m`containers
    ensures ok <==> AllNamed(ts, vs)
    ensures ok ==> m.tokens == old(m.tokens) + EncodeAll(ts, vs) && m.containers == old(m.containers)
    decreases ts, 1
  {
    assert ts[0..] == ts && vs[0..] == vs;
    for i := 0 to |ts|
      invariant |vs| == |ts| && HasTypes(ts[i..], vs[i..])
      invariant AllNamed(ts, vs) <==> AllNamed(ts[i..], vs[i..])
      invariant m.tokens + EncodeAll(ts[i..], vs[i..]) == old(m.tokens) + EncodeAll(ts, vs)
      invariant m.containers == old(m.containers)
    {
      assert ts[i..][1..] == ts[i + 1..] && vs[i..][1..] == vs[i + 1..];
      ghost var before := m.tokens;
      ok := AppendSingle(m, ts[i], vs[i]);
      if !ok {
        return;
      }
      Regroup(before, Encode(ts[i], vs[i]), EncodeAll(ts[i + 1..], vs[i + 1..]));
    }
    assert m.tokens + [] == m.tokens;
    ok := true;
  }
}
