/** Reading settles a value: what has been read once is read back unchanged ever after. */
module Settling {
  import opened Wrappers
  import opened DbusTypes
  import opened DbusValues
  import opened Wire
  import opened Codec
  import opened Transfer
  import opened Choice

  predicate NoVariants(t: Ty) {
    match t
    case Array(_, elem) => NoVariants(elem)
    case Record(_, fields) => forall f | f in fields :: NoVariants(f)
    case Variant(_) => false
    case Monostate => false
    case _ => true
  }

  /** Types in which no variant holds another variant. */
  predicate Simple(t: Ty) {
    match t
    case Array(_, elem) => Simple(elem)
    case Record(_, fields) => forall f | f in fields :: Simple(f)
    case Variant(alts) => forall a | a in alts :: a.Monostate? || NoVariants(a)
    case _ => true
  }

  /** A reader of type `t` and a writer of type `w`: the same type, or two types of one shape
      that may stand as alternatives of one variant. */
  predicate Comparable(t: Ty, w: Ty) {
    Wf(t) && Wf(w) && ShapeOf(t) == ShapeOf(w) && (if t == w then Simple(t) else NoVariants(t) && NoVariants(w))
  }

  predicate AllComparable(ts: seq<Ty>, ws: seq<Ty>) {
    |ts| == |ws| && forall i | 0 <= i < |ts| :: Comparable(ts[i], ws[i])
  }

  lemma ComparableElem(t: Ty, w: Ty)
    requires t.Array? && w.Array? && Comparable(t, w)
    ensures Comparable(t.elem, w.elem)
  {
    if t == w {
      assert Simple(t.elem);
    } else if t.elem == w.elem {
      NoVariantsIsSimple(t.elem);
    }
  }

  lemma ComparableFields(t: Ty, w: Ty)
    requires t.Record? && w.Record? && Comparable(t, w)
    ensures AllComparable(t.fields, w.fields)
  {
    forall i | 0 <= i < |t.fields|
      ensures i < |w.fields| && Comparable(t.fields[i], w.fields[i])
    {
      ShapeAt(t.fields, i);
      ShapeAt(w.fields, i);
      assert t.fields[i] in t.fields && w.fields[i] in w.fields;
      if t.fields[i] == w.fields[i] && t != w {
        NoVariantsIsSimple(t.fields[i]);
      }
    }
    assert |ShapeOfAll(t.fields)| == |ShapeOfAll(w.fields)|;
  }

  lemma {:induction false} ShapeAt(ts: seq<Ty>, i: nat)
    requires i < |ts|
    ensures ShapeOfAll(ts)[i] == ShapeOf(ts[i])
  {
    if i > 0 {
      ShapeAt(ts[1..], i - 1);
    }
  }

  lemma {:induction false} NoVariantsIsSimple(t: Ty)
    requires NoVariants(t)
    ensures Simple(t)
  {
    match t {
      case Array(_, elem) => NoVariantsIsSimple(elem);
      case Record(_, fields) =>
        forall f | f in fields
          ensures Simple(f)
        {
          NoVariantsIsSimple(f);
        }
      case _ =>
    }
  }

  // ---------------------------------------------------------------- settled values

  /** A value that can be written and is read back as it is. */
  predicate Settled(t: Ty, r: Val) {
    HasType(t, r) && Named(t, r) && Reread(t, r) == Some(r)
  }

  predicate AllSettled(ts: seq<Ty>, rs: seq<Val>) {
    HasTypes(ts, rs) && AllNamed(ts, rs) && ConveyAll(ts, Defaults(ts), ts, rs) == Some(rs)
  }

  lemma {:induction false} ConveySettles(t: Ty, w: Ty, v: Val)
    requires Comparable(t, w) && HasType(w, v) && Named(w, v) && Convey(t, Default(t), w, v).Some?
    ensures Settled(t, Convey(t, Default(t), w, v).value)
    decreases t, 0
  {
    match t {
      case Prim(_) =>
        if v.VPrim? && v.p.Text? {
          CStringTwice(v.p.s);
        }
      case Str => CStringOfText(w, v);
      case Enum(_) =>
        CStringOfText(w, v);
        EnumTakes(t, TextOf(w, v));
      case Array(kind, elem) =>
        ComparableElem(t, w);
        ArraySettles(kind, elem, w.elem, v.elems);
      case Record(pair, fields) =>
        ComparableFields(t, w);
        DefaultsLength(fields);
        AllSettle(fields, w.fields, v.members);
      case Variant(alts) =>
        VariantSettles(alts, v.index, v.held);
    }
  }

  lemma {:induction false} ArraySettles(kind: Container, elem: Ty, w: Ty, xs: seq<Val>)
    requires Comparable(elem, w) && forall x | x in xs :: HasType(w, x) && Named(w, x)
    requires ConveyElems(kind, elem, [], w, xs).Some?
    ensures var ys := ConveyElems(kind, elem, [], w, xs).value;
            && Sorted(kind, ys) && (forall y | y in ys :: Settled(elem, y))
            && ConveyElems(kind, elem, [], elem, ys) == Some(ys)
    decreases elem, 2
  {
    var ys := ElemsSettle(kind, elem, [], w, xs);
    SettledElems(kind, elem, ys);
  }

  lemma {:induction false} ElemsSettle(kind: Container, elem: Ty, acc: seq<Val>, w: Ty, xs: seq<Val>)
    returns (ys: seq<Val>)
    requires Comparable(elem, w) && forall x | x in xs :: HasType(w, x) && Named(w, x)
    requires Sorted(kind, acc) && (forall a | a in acc :: Settled(elem, a))
    requires ConveyElems(kind, elem, acc, w, xs).Some?
    ensures ConveyElems(kind, elem, acc, w, xs) == Some(ys)
    ensures Sorted(kind, ys) && (forall y | y in ys :: Settled(elem, y))
    decreases elem, 1, xs
  {
    if xs == [] {
      ys := acc;
    } else {
      var c := Convey(elem, Default(elem), w, xs[0]).value;
      ConveySettles(elem, w, xs[0]);
      InsertSorted(kind, acc, c);
      InsertMembers(kind, acc, c);
      ys := ElemsSettle(kind, elem, Insert(kind, acc, c), w, xs[1..]);
    }
  }

  lemma {:induction false} AllSettle(ts: seq<Ty>, ws: seq<Ty>, vs: seq<Val>)
    requires AllComparable(ts, ws) && HasTypes(ws, vs) && AllNamed(ws, vs)
    requires ConveyAll(ts, Defaults(ts), ws, vs).Some?
    ensures AllSettled(ts, ConveyAll(ts, Defaults(ts), ws, vs).value)
    decreases ts, 1
  {
    if ts != [] {
      assert Defaults(ts)[0] == Default(ts[0]) && Defaults(ts)[1..] == Defaults(ts[1..]);
      var c, rs := Convey(ts[0], Default(ts[0]), ws[0], vs[0]).value, ConveyAll(ts, Defaults(ts), ws, vs).value;
      assert Comparable(ts[0], ws[0]);
      ConveySettles(ts[0], ws[0], vs[0]);
      AllSettle(ts[1..], ws[1..], vs[1..]);
      assert rs[0] == c && rs[1..] == ConveyAll(ts[1..], Defaults(ts[1..]), ws[1..], vs[1..]).value;
    }
  }

  // ---------------------------------------------------------------- variants

  lemma {:induction false} VariantSettles(alts: seq<Ty>, i: nat, held: Val)
    requires Wf(Variant(alts)) && Simple(Variant(alts)) && i < |alts|
    requires HasType(alts[i], held) && Named(alts[i], held)
    requires Reread(Variant(alts), VVariant(i, held)).Some?
    ensures Settled(Variant(alts), Reread(Variant(alts), VVariant(i, held)).value)
    decreases alts, 2
  {
    var own := alts[i];
    assert own in alts && Wf(own);
    if ConvertsFromString(own) {
      TextMatch(alts, i);
      var j, x := ClaimSettles(alts, TextOf(own, held), own, held);
      TextMatch(alts, j);
    } else {
      var j := OtherMatch(alts, i);
      assert alts[j] in alts;
      ConveySettles(alts[j], own, held);
    }
  }

  /** What a string is converted to holds the same text, and is converted again to itself. */
  lemma ClaimSettles(alts: seq<Ty>, str: string, own: Ty, held: Val) returns (j: nat, x: Val)
    requires Wf(Variant(alts)) && Simple(Variant(alts)) && str == TextOf(own, held)
    requires Process(alts, 0, str).Some?
    ensures j < |alts| && Process(alts, 0, str) == Some(VVariant(j, x))
    ensures ConvertsFromString(alts[j]) && TextOf(alts[j], x) == str
    ensures HasType(alts[j], x) && Named(alts[j], x)
  {
    CStringOfText(own, held);
    ProcessIs(alts, 0, str);
    j := FirstClaim(alts, str);
    if j < |alts| {
      assert alts[j] in alts && alts[j].Enum?;
      EnumTakes(alts[j], str);
      x := Converted(alts[j], str).value;
    } else {
      j := StrIndex(alts);
      x := VPrim(Text(str));
    }
  }

  /** The alternative that takes a value that is no string. */
  lemma OtherMatch(alts: seq<Ty>, i: nat) returns (j: nat)
    requires Wf(Variant(alts)) && Simple(Variant(alts)) && i < |alts| && Wf(alts[i]) && !ConvertsFromString(alts[i])
    ensures j < |alts| && FirstMatch(alts, 0, Sig(alts[i])) == FirstMatch(alts, 0, Sig(alts[j])) == Some(j)
    ensures !ConvertsFromString(alts[j]) && Sig(alts[j]) == Sig(alts[i]) && Comparable(alts[j], alts[i])
  {
    assert alts[i] in alts;
    MatchSameShape(alts, alts[i]);
    j := FirstMatch(alts, 0, Sig(alts[i])).value;
    assert alts[j] in alts;
    TextShape(alts[i]);
    TextShape(alts[j]);
    SameSigSameShape(alts[j], alts[i]);
    NoVariantsIsSimple(alts[j]);
  }
}
