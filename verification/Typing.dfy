/** What a reader gets is well typed, whatever the two types are. */
module Typing {
  import opened Wrappers
  import opened Sequences
  import opened DbusTypes
  import opened DbusValues
  import opened Wire
  import opened Codec
  import opened Transfer
  import opened Choice

  lemma {:induction false} DefaultTyped(t: Ty)
    requires t.Monostate? || Wf(t)
    ensures HasType(t, Default(t))
    decreases t, 0
  {
    match t {
      case Record(_, fields) => DefaultsTyped(fields);
      case Variant(alts) =>
        assert alts[0] in alts;
        DefaultTyped(alts[0]);
      case _ =>
    }
  }

  lemma {:induction false} DefaultsTyped(ts: seq<Ty>)
    requires forall t | t in ts :: Wf(t)
    ensures HasTypes(ts, Defaults(ts))
    decreases ts, 1
  {
    if ts != [] {
      DefaultTyped(ts[0]);
      DefaultsTyped(ts[1..]);
    }
  }

  /** Zeros, false, empty texts and containers, and of every variant the first alternative. */
  predicate IsZero(t: Ty, v: Val)
    decreases t, 0
  {
    match (t, v)
    case (Prim(b), VBool(x)) => b.Boolean? && !x
    case (Prim(b), VPrim(p)) =>
      if b.Double? then p == Real(0.0) else if b.ObjectPath? || b.Signature? then p == Text("") else p == Num(0)
    case (Str, VPrim(p)) => p == Text("")
    case (Enum(_), VEnum(n)) => n == 0
    case (Array(_, _), VArray(xs)) => |xs| == 0
    case (Record(_, fields), VRecord(vs)) => AllZero(fields, vs)
    case (Variant(alts), VVariant(i, held)) => i == 0 && alts != [] && IsZero(alts[0], held)
    case (Monostate, VMono) => true
    case _ => false
  }

  predicate AllZero(ts: seq<Ty>, vs: seq<Val>)
    decreases ts, 1
  {
    |ts| == |vs| && (ts == [] || (IsZero(ts[0], vs[0]) && AllZero(ts[1..], vs[1..])))
  }

  /** The value-initialised object is the one that holds nothing but zeros. */
  lemma {:induction false} DefaultIsZero(t: Ty, v: Val)
    requires (t.Monostate? || Wf(t)) && HasType(t, v)
    ensures IsZero(t, v) <==> v == Default(t)
    decreases t, 0
  {
    match t {
      case Record(_, fields) => DefaultsAreZero(fields, v.members);
      case Variant(alts) =>
        if v.index == 0 {
          assert alts[0] in alts;
          DefaultIsZero(alts[0], v.held);
        }
      case _ =>
    }
  }

  lemma {:induction false} DefaultsAreZero(ts: seq<Ty>, vs: seq<Val>)
    requires (forall t | t in ts :: Wf(t)) && HasTypes(ts, vs)
    ensures AllZero(ts, vs) <==> vs == Defaults(ts)
    decreases ts, 1
  {
    if ts != [] {
      DefaultIsZero(ts[0], vs[0]);
      DefaultsAreZero(ts[1..], vs[1..]);
      SameParts(vs, Defaults(ts));
    }
  }

  lemma {:induction false} ConvertedTyped(t: Ty, str: string)
    requires (t.Monostate? || Wf(t)) && Converted(t, str).Some?
    ensures HasType(t, Converted(t, str).value)
    decreases t, 1
  {
    if t.Variant? {
      ProcessTyped(t.alts, str);
    }
  }

  lemma {:induction false} ProcessTyped(alts: seq<Ty>, str: string)
    requires Wf(Variant(alts)) && Process(alts, 0, str).Some?
    ensures HasType(Variant(alts), Process(alts, 0, str).value)
    decreases alts, 0
  {
    ProcessIs(alts, 0, str);
    var k := FirstClaim(alts, str);
    if k < |alts| {
      assert alts[k] in alts;
      ConvertedTyped(alts[k], str);
    }
  }

  lemma {:induction false} ConveyTyped(t: Ty, w: Ty, v: Val)
    requires Wf(t) && Wf(w) && ShapeOf(t) == ShapeOf(w) && HasType(w, v) && Named(w, v)
    requires Convey(t, Default(t), w, v).Some?
    ensures HasType(t, Convey(t, Default(t), w, v).value)
    decreases t, 0
  {
    match t {
      case Array(kind, elem) =>
        var ys := ElemsTyped(kind, elem, [], w.elem, v.elems);
      case Record(_, fields) =>
        DefaultsLength(fields);
        AllTyped(fields, w.fields, v.members);
      case Variant(alts) =>
        assert w.alts[v.index] in w.alts && Wf(w.alts[v.index]);
        VariantTyped(alts, w.alts[v.index], v.index, v.held, w);
      case _ =>
    }
  }

  lemma {:induction false} VariantTyped(alts: seq<Ty>, held: Ty, i: nat, u: Val, w: Ty)
    requires Wf(Variant(alts)) && Wf(w) && w.Variant? && i < |w.alts| && w.alts[i] == held && Wf(held)
    requires HasType(held, u) && Named(held, u)
    requires Convey(Variant(alts), Default(Variant(alts)), w, VVariant(i, u)).Some?
    ensures HasType(Variant(alts), Convey(Variant(alts), Default(Variant(alts)), w, VVariant(i, u)).value)
    decreases alts, 2
  {
    MatchSameShape(alts, held);
    var m := FirstMatch(alts, 0, Sig(held));
    if m.None? {
      DefaultTyped(Variant(alts));
    } else if ConvertsFromString(alts[m.value]) {
      ProcessTyped(alts, TextOf(held, u));
    } else {
      assert alts[m.value] in alts;
      ConveyTyped(alts[m.value], held, u);
    }
  }

  lemma {:induction false} ElemsTyped(kind: Container, elem: Ty, acc: seq<Val>, w: Ty, xs: seq<Val>)
    returns (ys: seq<Val>)
    requires Wf(elem) && Wf(w) && ShapeOf(elem) == ShapeOf(w) && forall x | x in xs :: HasType(w, x) && Named(w, x)
    requires Sorted(kind, acc) && forall a | a in acc :: HasType(elem, a)
    requires ConveyElems(kind, elem, acc, w, xs).Some?
    ensures ConveyElems(kind, elem, acc, w, xs) == Some(ys)
    ensures Sorted(kind, ys) && forall y | y in ys :: HasType(elem, y)
    decreases elem, 1, xs
  {
    if xs == [] {
      ys := acc;
    } else {
      var c := Convey(elem, Default(elem), w, xs[0]).value;
      ConveyTyped(elem, w, xs[0]);
      InsertSorted(kind, acc, c);
      InsertMembers(kind, acc, c);
      ys := ElemsTyped(kind, elem, Insert(kind, acc, c), w, xs[1..]);
    }
  }

  lemma {:induction false} AllTyped(ts: seq<Ty>, ws: seq<Ty>, vs: seq<Val>)
    requires (forall t | t in ts :: Wf(t)) && (forall w | w in ws :: Wf(w)) && ShapeOfAll(ts) == ShapeOfAll(ws)
    requires HasTypes(ws, vs) && AllNamed(ws, vs) && ConveyAll(ts, Defaults(ts), ws, vs).Some?
    ensures HasTypes(ts, ConveyAll(ts, Defaults(ts), ws, vs).value)
    decreases ts, 1
  {
    if ts != [] {
      ShapeOfAllHead(ts);
      ShapeOfAllHead(ws);
      assert Defaults(ts)[0] == Default(ts[0]) && Defaults(ts)[1..] == Defaults(ts[1..]);
      ConveyTyped(ts[0], ws[0], vs[0]);
      AllTyped(ts[1..], ws[1..], vs[1..]);
      var c, rs := Convey(ts[0], Default(ts[0]), ws[0], vs[0]).value, ConveyAll(ts, Defaults(ts), ws, vs).value;
      assert rs[0] == c && rs[1..] == ConveyAll(ts[1..], Defaults(ts[1..]), ws[1..], vs[1..]).value;
    }
  }
}
