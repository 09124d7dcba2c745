/** Reading may change which alternative of a variant holds a value.  When is the value still
    sent on as it came? */
module Stability {
  import opened Wrappers
  import opened Sequences
  import opened DbusTypes
  import opened DbusValues
  import opened Wire
  import opened Codec
  import opened Transfer
  import opened Choice
  import opened Typing
  import opened Settling
  import opened Ranks
  import opened RoundTrip

  // ---------------------------------------------------------------- what is preserved

  /** The string goes to an enum or a string alternative, and not to a nested variant. */
  predicate KeptAsText(alts: seq<Ty>, str: string) {
    var k := FirstClaim(alts, str);
    k < |alts| ==> alts[k].Enum?
  }

  /** Every array arrives in the key order of the container that takes it, every variant has
      an alternative for what it is sent, and no nested variant takes a string. */
  predicate Preserved(t: Ty, w: Ty, v: Val)
    decreases t, 0
  {
    match t
    case Array(kind, elem) =>
      && w.Array? && v.VArray?
      && Conveyed(elem, w.elem, v.elems).Some? && Sorted(kind, Conveyed(elem, w.elem, v.elems).value)
      && forall x | x in v.elems :: Preserved(elem, w.elem, x)
    case Record(_, fields) => w.Record? && v.VRecord? && AllPreserved(fields, w.fields, v.members)
    case Variant(alts) =>
      && w.Variant? && v.VVariant? && v.index < |w.alts|
      && var held := w.alts[v.index];
         var m := FirstMatch(alts, 0, Sig(held));
         && m.Some?
         && (if ConvertsFromString(alts[m.value]) then KeptAsText(alts, TextOf(held, v.held))
             else Preserved(alts[m.value], held, v.held))
    case _ => true
  }

  predicate AllPreserved(ts: seq<Ty>, ws: seq<Ty>, vs: seq<Val>)
    decreases ts, 1
  {
    && |ts| == |ws| == |vs|
    && (ts == [] || (Preserved(ts[0], ws[0], vs[0]) && AllPreserved(ts[1..], ws[1..], vs[1..])))
  }

  /** The value read can be written, and is written as the value that was sent. */
  predicate WrittenAlike(t: Ty, w: Ty, v: Val)
    requires Convey(t, Default(t), w, v).Some?
  {
    var r := Convey(t, Default(t), w, v).value;
    Named(t, r) && Encode(t, r) == Encode(w, v)
  }

  /** A reader and a writer of one shape, and a value that can be written and is read. */
  predicate Sent(t: Ty, w: Ty, v: Val) {
    && Wf(t) && Wf(w) && ShapeOf(t) == ShapeOf(w)
    && HasType(w, v) && Named(w, v) && Convey(t, Default(t), w, v).Some?
  }

  lemma {:induction false} AlikeIffPreserved(t: Ty, w: Ty, v: Val)
    requires Sent(t, w, v)
    ensures WrittenAlike(t, w, v) <==> Preserved(t, w, v)
    decreases t, 0
  {
    match t {
      case Prim(_) =>
        if v.VPrim? && v.p.Text? {
          CStringTwice(v.p.s);
        }
      case Str | Enum(_) =>
        TextShape(w);
        TextAlike(t, w, v);
      case Array(kind, elem) =>
        ArrayAlike(kind, elem, w, v.elems);
      case Record(pair, fields) =>
        DefaultsLength(fields);
        RecordAlike(t, w, v.members);
      case Variant(alts) =>
        VariantAlike(alts, w, v.index, v.held);
    }
  }

  lemma TextAlike(t: Ty, w: Ty, v: Val)
    requires ConvertsFromString(t) && ConvertsFromString(w) && Wf(t)
    requires Convey(t, Default(t), w, v).Some?
    ensures WrittenAlike(t, w, v)
  {
    CStringOfText(w, v);
    if t.Enum? {
      EnumTakes(t, TextOf(w, v));
    }
  }

  /** Two written values at the same place of two equal messages are read as the same value. */
  lemma SameHead(t: Ty, y: Val, a: seq<Token>, w: Ty, x: Val, b: seq<Token>)
    requires Sent(t, w, x) && HasType(t, y) && Named(t, y)
    requires Encode(t, y) + a == Encode(w, x) + b
    ensures Reread(t, y) == Convey(t, Default(t), w, x) && a == b && Encode(t, y) == Encode(w, x)
  {
    ReadIsConvey(t, Default(t), t, y, a);
    ReadIsConvey(t, Default(t), w, x, b);
    SameFront(Encode(t, y), Encode(w, x), a);
  }

  lemma SameFront(p: seq<Token>, q: seq<Token>, a: seq<Token>)
    requires |p + a| == |q + a| && p + a == q + a
    ensures p == q
  {
    assert p == (p + a)[..|p|] && q == (q + a)[..|q|];
  }

  lemma SameContainer(open: Token, p: seq<Token>, q: seq<Token>)
    ensures [open] + p + [Close] == [open] + q + [Close] <==> p == q
  {
    var a, b := [open] + p + [Close], [open] + q + [Close];
    if a == b {
      assert p == a[1..|a| - 1] && q == b[1..|b| - 1];
    }
  }

  // ---------------------------------------------------------------- arrays

  predicate AllSent(elem: Ty, w: Ty, xs: seq<Val>) {
    && Wf(elem) && Wf(w) && ShapeOf(elem) == ShapeOf(w)
    && (forall x | x in xs :: HasType(w, x) && Named(w, x)) && Conveyed(elem, w, xs).Some?
  }

  lemma {:induction false} ArrayAlike(kind: Container, elem: Ty, w: Ty, xs: seq<Val>)
    requires Wf(elem) && w.Array? && Wf(w.elem) && ShapeOf(elem) == ShapeOf(w.elem)
    requires forall x | x in xs :: HasType(w.elem, x) && Named(w.elem, x)
    requires ConveyElems(kind, elem, [], w.elem, xs).Some?
    ensures WrittenAlike(Array(kind, elem), w, VArray(xs)) <==> Preserved(Array(kind, elem), w, VArray(xs))
    decreases elem, 3
  {
    var ys := ElemsTyped(kind, elem, [], w.elem, xs);
    AllConveyed(kind, elem, [], w.elem, xs);
    ShapeGivesSig(elem, w.elem);
    SameContainer(Open(ARRAY, CString(Sig(elem))), EncodeElems(elem, ys), EncodeElems(w.elem, xs));
    if Preserved(Array(kind, elem), w, VArray(xs)) {
      BodyAlike(kind, elem, w.elem, xs);
    }
    if WrittenAlike(Array(kind, elem), w, VArray(xs)) {
      BodyPreserved(kind, elem, ys, w.elem, xs);
    }
  }

  lemma {:induction false} BodyAlike(kind: Container, elem: Ty, w: Ty, xs: seq<Val>)
    requires AllSent(elem, w, xs) && Sorted(kind, Conveyed(elem, w, xs).value)
    requires forall x | x in xs :: Preserved(elem, w, x)
    ensures var cs := Conveyed(elem, w, xs).value;
            && ConveyElems(kind, elem, [], w, xs) == Some(cs)
            && EncodeElems(elem, cs) == EncodeElems(w, xs) && forall c | c in cs :: Named(elem, c)
    decreases elem, 2
  {
    var cs := Conveyed(elem, w, xs).value;
    assert [] + cs == cs;
    InsertedInOrder(kind, elem, [], w, xs);
    ElemsAlike(elem, w, xs);
  }

  lemma {:induction false} BodyPreserved(kind: Container, elem: Ty, ys: seq<Val>, w: Ty, xs: seq<Val>)
    requires AllSent(elem, w, xs) && ConveyElems(kind, elem, [], w, xs) == Some(ys)
    requires forall y | y in ys :: HasType(elem, y) && Named(elem, y)
    requires EncodeElems(elem, ys) == EncodeElems(w, xs)
    ensures Conveyed(elem, w, xs) == Some(ys) && forall x | x in xs :: Preserved(elem, w, x)
    decreases elem, 2
  {
    ElemsSplit(elem, ys, w, xs);
    TakenInOrder(kind, elem, ys, w, xs);
    ElemsPreserved(elem, w, xs);
  }

  lemma {:induction false} ElemsAlike(elem: Ty, w: Ty, xs: seq<Val>)
    requires AllSent(elem, w, xs) && forall x | x in xs :: Preserved(elem, w, x)
    ensures var cs := Conveyed(elem, w, xs).value;
            EncodeElems(elem, cs) == EncodeElems(w, xs) && forall c | c in cs :: Named(elem, c)
    decreases elem, 1, xs
  {
    if xs != [] {
      AlikeIffPreserved(elem, w, xs[0]);
      ElemsAlike(elem, w, xs[1..]);
      var cs := Conveyed(elem, w, xs).value;
      assert cs[1..] == Conveyed(elem, w, xs[1..]).value && cs == [cs[0]] + cs[1..];
    }
  }

  lemma {:induction false} ElemsPreserved(elem: Ty, w: Ty, xs: seq<Val>)
    requires AllSent(elem, w, xs) && var cs := Conveyed(elem, w, xs).value;
             EncodeElems(elem, cs) == EncodeElems(w, xs) && forall c | c in cs :: HasType(elem, c) && Named(elem, c)
    ensures forall x | x in xs :: Preserved(elem, w, x)
    decreases elem, 1, xs
  {
    if xs != [] {
      var cs := Conveyed(elem, w, xs).value;
      assert cs[1..] == Conveyed(elem, w, xs[1..]).value;
      SameHead(elem, cs[0], EncodeElems(elem, cs[1..]), w, xs[0], EncodeElems(w, xs[1..]));
      AlikeIffPreserved(elem, w, xs[0]);
      ElemsPreserved(elem, w, xs[1..]);
    }
  }

  /** Equal bodies hold equally many elements, which are read alike one by one. */
  lemma {:induction false} ElemsSplit(elem: Ty, ys: seq<Val>, w: Ty, xs: seq<Val>)
    requires AllSent(elem, w, xs) && forall y | y in ys :: HasType(elem, y) && Named(elem, y)
    requires EncodeElems(elem, ys) == EncodeElems(w, xs)
    ensures |Conveyed(elem, w, xs).value| == |ys|
    ensures forall k | 0 <= k < |ys| :: Reread(elem, ys[k]) == Some(Conveyed(elem, w, xs).value[k])
    decreases xs
  {
    if xs == [] || ys == [] {
      SomeToken(elem, ys);
      SomeToken(w, xs);
    } else {
      SameHead(elem, ys[0], EncodeElems(elem, ys[1..]), w, xs[0], EncodeElems(w, xs[1..]));
      ElemsSplit(elem, ys[1..], w, xs[1..]);
      var cs := Conveyed(elem, w, xs).value;
      assert cs[1..] == Conveyed(elem, w, xs[1..]).value;
      assert forall k | 0 < k < |ys| :: ys[k] == ys[1..][k - 1] && cs[k] == cs[1..][k - 1];
    }
  }

  lemma SomeToken(t: Ty, xs: seq<Val>)
    requires Wf(t) && forall x | x in xs :: HasType(t, x)
    ensures xs == [] <==> EncodeElems(t, xs) == []
  {
    if xs != [] {
      EncodeOpens(t, xs[0], EncodeElems(t, xs[1..]));
    }
  }

  // ---------------------------------------------------------------- records

  lemma {:induction false} RecordAlike(t: Ty, w: Ty, vs: seq<Val>)
    requires t.Record? && Sent(t, w, VRecord(vs))
    requires |Defaults(t.fields)| == |t.fields|
    ensures WrittenAlike(t, w, VRecord(vs)) <==> Preserved(t, w, VRecord(vs))
    decreases t.fields, 2
  {
    var rs := ConveyAll(t.fields, Defaults(t.fields), w.fields, vs).value;
    AllAlike(t.fields, w.fields, vs);
    assert SigAll(t.fields) == SigAll(w.fields) by {
      ShapeGivesSigAll(t.fields, w.fields);
    }
    SameContainer(Open(RecordKind(t.pair), CString(SigAll(t.fields))),
                  EncodeAll(t.fields, rs), EncodeAll(w.fields, vs));
  }

  lemma {:induction false} AllAlike(ts: seq<Ty>, ws: seq<Ty>, vs: seq<Val>)
    requires (forall t | t in ts :: Wf(t)) && (forall w | w in ws :: Wf(w)) && ShapeOfAll(ts) == ShapeOfAll(ws)
    requires HasTypes(ws, vs) && AllNamed(ws, vs) && ConveyAll(ts, Defaults(ts), ws, vs).Some?
    ensures var rs := ConveyAll(ts, Defaults(ts), ws, vs).value;
            AllNamed(ts, rs) && EncodeAll(ts, rs) == EncodeAll(ws, vs) <==> AllPreserved(ts, ws, vs)
    decreases ts, 1
  {
    if ts != [] {
      ShapeOfAllHead(ts);
      ShapeOfAllHead(ws);
      assert Defaults(ts)[0] == Default(ts[0]) && Defaults(ts)[1..] == Defaults(ts[1..]);
      var rs := ConveyAll(ts, Defaults(ts), ws, vs).value;
      assert rs[1..] == ConveyAll(ts[1..], Defaults(ts[1..]), ws[1..], vs[1..]).value;
      AlikeIffPreserved(ts[0], ws[0], vs[0]);
      AllAlike(ts[1..], ws[1..], vs[1..]);
      if AllNamed(ts, rs) && EncodeAll(ts, rs) == EncodeAll(ws, vs) {
        ConveyTyped(ts[0], ws[0], vs[0]);
        SameHead(ts[0], rs[0], EncodeAll(ts[1..], rs[1..]), ws[0], vs[0], EncodeAll(ws[1..], vs[1..]));
      }
    }
  }

  // ---------------------------------------------------------------- variants

  lemma {:induction false} VariantAlike(alts: seq<Ty>, w: Ty, i: nat, held: Val)
    requires Sent(Variant(alts), w, VVariant(i, held))
    ensures WrittenAlike(Variant(alts), w, VVariant(i, held)) <==> Preserved(Variant(alts), w, VVariant(i, held))
    decreases alts, 2
  {
    HeldIsWf(w, i, held);
    var own := w.alts[i];
    MatchSameShape(alts, own);
    var m := FirstMatch(alts, 0, Sig(own));
    if m.None? {
      UnmatchedNotAlike(alts, own, held);
    } else if ConvertsFromString(alts[m.value]) {
      TextShape(alts[m.value]);
      TextShape(own);
      ClaimAlike(alts, own, held);
    } else {
      OtherAlike(alts, m.value, own, held);
    }
  }

  lemma {:induction false} OtherAlike(alts: seq<Ty>, j: nat, own: Ty, held: Val)
    requires j < |alts| && Sent(alts[j], own, held)
    ensures var x := Convey(alts[j], Default(alts[j]), own, held).value;
            Named(alts[j], x)
            && Encode(Variant(alts), VVariant(j, x)) == [Open(VARIANT, CString(Sig(own)))] + Encode(own, held) + [Close]
            <==> Preserved(alts[j], own, held)
    decreases alts, 1
  {
    assert alts[j] in alts;
    SameSigSameShape(alts[j], own);
    AlikeIffPreserved(alts[j], own, held);
    MatchedAlike(alts, j, Convey(alts[j], Default(alts[j]), own, held).value, own, held);
  }

  lemma HeldIsWf(w: Ty, i: nat, held: Val)
    requires w.Variant? && Wf(w) && i < |w.alts| && Named(w.alts[i], held)
    ensures Wf(w.alts[i])
  {
    var own := w.alts[i];
    assert own in w.alts && !own.Monostate?;
  }

  lemma MatchedAlike(alts: seq<Ty>, j: nat, x: Val, own: Ty, held: Val)
    requires j < |alts| && Sig(alts[j]) == Sig(own)
    ensures Encode(Variant(alts), VVariant(j, x)) == [Open(VARIANT, CString(Sig(own)))] + Encode(own, held) + [Close]
            <==> Encode(alts[j], x) == Encode(own, held)
  {
    SameContainer(Open(VARIANT, CString(Sig(own))), Encode(alts[j], x), Encode(own, held));
  }

  /** The default value announces another type than the one that was not found. */
  lemma UnmatchedNotAlike(alts: seq<Ty>, own: Ty, held: Val)
    requires Wf(Variant(alts)) && Wf(own) && FirstMatch(alts, 0, Sig(own)).None?
    ensures Encode(Variant(alts), Default(Variant(alts)))
            != [Open(VARIANT, CString(Sig(own)))] + Encode(own, held) + [Close]
  {
    SigWhole(own);
    var d := Encode(Variant(alts), Default(Variant(alts)));
    assert d[0] == Open(VARIANT, CString(Sig(alts[0])));
  }

  /** A held text is sent on as it came exactly when no nested variant claims it. */
  lemma ClaimAlike(alts: seq<Ty>, own: Ty, held: Val)
    requires Wf(Variant(alts)) && ConvertsFromString(own) && Process(alts, 0, TextOf(own, held)).Some?
    ensures var t, r := Variant(alts), Process(alts, 0, TextOf(own, held)).value;
            (Named(t, r) && Encode(t, r) == [Open(VARIANT, CString(Sig(own)))] + Encode(own, held) + [Close])
            <==> KeptAsText(alts, TextOf(own, held))
  {
    var j, x := Claim(alts, own, held);
    if KeptAsText(alts, TextOf(own, held)) {
      TextSent(alts, j, x, own, held);
    } else {
      NestedNotAlike(alts, j, x);
      assert Sig(own) == "s";
    }
  }

  lemma Claim(alts: seq<Ty>, own: Ty, held: Val) returns (j: nat, x: Val)
    requires Wf(Variant(alts)) && Process(alts, 0, TextOf(own, held)).Some?
    ensures j < |alts| && Process(alts, 0, TextOf(own, held)) == Some(VVariant(j, x))
    ensures if KeptAsText(alts, TextOf(own, held))
            then ConvertsFromString(alts[j]) && Named(alts[j], x) && TextOf(alts[j], x) == TextOf(own, held)
            else alts[j].Variant?
  {
    var str := TextOf(own, held);
    CStringOfText(own, held);
    ProcessIs(alts, 0, str);
    j := FirstClaim(alts, str);
    if j < |alts| {
      x := Converted(alts[j], str).value;
      if alts[j].Enum? {
        assert alts[j] in alts;
        EnumTakes(alts[j], str);
      }
    } else {
      j := StrIndex(alts);
      x := VPrim(Text(str));
    }
  }

  lemma TextSent(alts: seq<Ty>, j: nat, x: Val, own: Ty, held: Val)
    requires j < |alts| && ConvertsFromString(alts[j]) && ConvertsFromString(own)
    requires TextOf(alts[j], x) == TextOf(own, held)
    ensures Encode(Variant(alts), VVariant(j, x)) == [Open(VARIANT, CString(Sig(own)))] + Encode(own, held) + [Close]
  {
    MatchedAlike(alts, j, x, own, held);
  }

  lemma NestedNotAlike(alts: seq<Ty>, k: nat, x: Val)
    requires k < |alts| && alts[k].Variant?
    ensures Encode(Variant(alts), VVariant(k, x))[0] != Open(VARIANT, CString("s"))
  {
    CStringWhole("s");
    CStringWhole("v");
    assert "v"[0] != "s"[0];
  }

  // ---------------------------------------------------------------- the stability theorem

  /** Append, read, append again, for any type: the second message is the first one exactly
      when every set, map, variant and string was preserved; and the value read is read back
      unchanged from then on exactly when it is faithful, as it is when the messages are the
      same. */
  lemma WireStable(t: Ty, v: Val, rest: seq<Token>)
    requires Wf(t) && Writable(t, v)
    ensures var r := Parse(t, Default(t), Encode(t, v) + rest);
            r.Ok? ==>
              && (Writable(t, r.value) && Encode(t, r.value) == Encode(t, v) <==> Preserved(t, t, v))
              && (Writable(t, r.value) ==>
                    (Parse(t, Default(t), Encode(t, r.value) + rest) == Ok(r.value, rest) <==> Faithful(t, r.value)))
              && (Preserved(t, t, v) ==> Faithful(t, r.value))
  {
    ReadIsConvey(t, Default(t), t, v, rest);
    if Reread(t, v).Some? {
      var r := Reread(t, v).value;
      ConveyTyped(t, t, v);
      AlikeIffPreserved(t, t, v);
      if Named(t, r) {
        RoundTrips(t, r, rest);
      }
    }
  }

  /** With no variant inside a variant every value settles after one reading, even one that is
      sent on differently. */
  lemma SettlesAtOnce(t: Ty, v: Val, rest: seq<Token>)
    requires Wf(t) && Simple(t) && Writable(t, v)
    ensures var r := Parse(t, Default(t), Encode(t, v) + rest);
            r.Ok? ==>
              && Writable(t, r.value)
              && Parse(t, Default(t), Encode(t, r.value) + rest) == Ok(r.value, rest)
  {
    ReadIsConvey(t, Default(t), t, v, rest);
    if Reread(t, v).Some? {
      ConveySettles(t, t, v);
      ReadIsConvey(t, Default(t), t, Reread(t, v).value, rest);
    }
  }

  /** Types without sets and maps. */
  predicate NoKeys(t: Ty) {
    match t
    case Array(kind, elem) => kind.Vector? && NoKeys(elem)
    case Record(_, fields) => forall f | f in fields :: NoKeys(f)
    case Variant(alts) => forall a | a in alts :: NoKeys(a)
    case _ => true
  }

  lemma {:induction false} NoKeysPreserved(t: Ty, w: Ty, v: Val)
    requires NoKeys(t) && Comparable(t, w) && HasType(w, v) && Named(w, v) && Convey(t, Default(t), w, v).Some?
    ensures Preserved(t, w, v)
    decreases t, 0
  {
    match t {
      case Array(kind, elem) =>
        ComparableElem(t, w);
        AllConveyed(kind, elem, [], w.elem, v.elems);
        NoKeysElems(elem, w.elem, v.elems);
      case Record(_, fields) =>
        ComparableFields(t, w);
        DefaultsLength(fields);
        NoKeysAll(fields, w.fields, v.members);
      case Variant(alts) =>
        var i := v.index;
        assert alts[i] in alts && Wf(alts[i]);
        if ConvertsFromString(alts[i]) {
          TextMatch(alts, i);
          SimpleKeepsText(alts, TextOf(alts[i], v.held));
        } else {
          var j := OtherMatch(alts, i);
          assert alts[j] in alts;
          NoKeysPreserved(alts[j], alts[i], v.held);
        }
      case _ =>
    }
  }

  lemma SimpleKeepsText(alts: seq<Ty>, str: string)
    requires Simple(Variant(alts))
    ensures KeptAsText(alts, str)
  {
    var k := FirstClaim(alts, str);
    if k < |alts| {
      var a := alts[k];
      assert a in alts;
      assert a.Monostate? || NoVariants(a);
    }
  }

  lemma {:induction false} NoKeysElems(elem: Ty, w: Ty, xs: seq<Val>)
    requires NoKeys(elem) && Comparable(elem, w) && forall x | x in xs :: HasType(w, x) && Named(w, x)
    requires Conveyed(elem, w, xs).Some?
    ensures forall x | x in xs :: Preserved(elem, w, x)
    decreases elem, 1, xs
  {
    if xs != [] {
      NoKeysPreserved(elem, w, xs[0]);
      NoKeysElems(elem, w, xs[1..]);
    }
  }

  lemma {:induction false} NoKeysAll(ts: seq<Ty>, ws: seq<Ty>, vs: seq<Val>)
    requires (forall t | t in ts :: NoKeys(t)) && AllComparable(ts, ws) && HasTypes(ws, vs) && AllNamed(ws, vs)
    requires ConveyAll(ts, Defaults(ts), ws, vs).Some?
    ensures AllPreserved(ts, ws, vs)
    decreases ts, 1
  {
    if ts != [] {
      assert Defaults(ts)[0] == Default(ts[0]) && Defaults(ts)[1..] == Defaults(ts[1..]);
      assert Comparable(ts[0], ws[0]);
      NoKeysPreserved(ts[0], ws[0], vs[0]);
      NoKeysAll(ts[1..], ws[1..], vs[1..]);
    }
  }

  /** Two elements of a set that are read as the same value: the set is not sent on as it
      came. */
  lemma CollidingSet(elem: Ty, xs: seq<Val>, i: nat, j: nat, rest: seq<Token>)
    requires var t := Array(Set, elem); Wf(t) && Writable(t, VArray(xs))
    requires i < j < |xs| && Reread(elem, xs[i]) == Reread(elem, xs[j])
    ensures var t := Array(Set, elem);
            var r := Parse(t, Default(t), Encode(t, VArray(xs)) + rest);
            r.Ok? ==> !Writable(t, r.value) || Encode(t, r.value) != Encode(t, VArray(xs))
  {
    WireStable(Array(Set, elem), VArray(xs), rest);
    if Conveyed(elem, elem, xs).Some? {
      ConveyedAt(elem, elem, xs, i);
      ConveyedAt(elem, elem, xs, j);
      NotLessItself(Conveyed(elem, elem, xs).value[i]);
    }
  }

  /** Such sets exist: one that holds an enum value and the string that names it. */
  lemma EnumAndNameCollide(m: seq<Enumerator>, n: int, elem: Ty, xs: seq<Val>)
    requires WfMapping(m) && HasValue(m, n) && elem == Variant([Enum(m), Str])
    requires |xs| == 2 && xs[0] == VVariant(0, VEnum(n)) && xs[1] == VVariant(1, VPrim(Text(NameOf(m, n))))
    ensures Writable(Array(Set, elem), VArray(xs))
    ensures Reread(elem, xs[0]) == Reread(elem, xs[1]) == Some(xs[0])
  {
    EnumReread(m, n);
    CStringWhole(NameOf(m, n));
    EnumClaims(elem.alts, m, n);
    TextMatch(elem.alts, 0);
    TextMatch(elem.alts, 1);
    assert Less(xs[0], xs[1]);
  }

  lemma EnumClaims(alts: seq<Ty>, m: seq<Enumerator>, n: int)
    requires WfMapping(m) && HasValue(m, n) && alts == [Enum(m), Str]
    ensures Process(alts, 0, NameOf(m, n)) == Some(VVariant(0, VEnum(n)))
  {
    EnumReread(m, n);
    assert Converted(alts[0], NameOf(m, n)) == Some(VEnum(n));
    ProcessIs(alts, 0, NameOf(m, n));
  }

  // ---------------------------------------------------------------- reading never throws

  /** Types whose variants hold only basic types, strings and enums. */
  predicate BasicAlternatives(t: Ty) {
    match t
    case Array(_, elem) => BasicAlternatives(elem)
    case Record(_, fields) => forall f | f in fields :: BasicAlternatives(f)
    case Variant(alts) => forall a | a in alts :: a.Monostate? || a.Prim? || ConvertsFromString(a)
    case _ => true
  }

  lemma {:induction false} BasicReread(t: Ty, v: Val)
    requires Wf(t) && BasicAlternatives(t) && HasType(t, v) && Named(t, v)
    ensures Reread(t, v).Some?
    decreases t, 0
  {
    match t {
      case Prim(_) | Str =>
      case Enum(m) => EnumReread(m, v.n);
      case Array(kind, elem) => BasicRereadElems(kind, elem, [], v.elems);
      case Record(_, fields) => BasicRereadAll(fields, v.members);
      case Variant(alts) =>
        BasicRereadVariant(alts, v.index, v.held);
    }
  }

  lemma BasicRereadVariant(alts: seq<Ty>, i: nat, held: Val)
    requires Wf(Variant(alts)) && BasicAlternatives(Variant(alts)) && i < |alts|
    requires HasType(alts[i], held) && Named(alts[i], held)
    ensures Reread(Variant(alts), VVariant(i, held)).Some?
  {
    var own := alts[i];
    assert own in alts && Wf(own);
    if own.Prim? {
      MatchSameShape(alts, own);
      var j := FirstMatch(alts, 0, Sig(own)).value;
      assert alts[j] in alts;
      TextShape(own);
      TextShape(alts[j]);
      assert Convey(alts[j], Default(alts[j]), own, held).Some?;
    } else {
      TextVariant(alts, i, held);
      ProcessIs(alts, 0, TextOf(own, held));
      if own.Enum? {
        EnumReread(own.mapping, held.n);
      }
    }
  }

  lemma {:induction false} BasicRereadElems(kind: Container, elem: Ty, acc: seq<Val>, xs: seq<Val>)
    requires Wf(elem) && BasicAlternatives(elem) && forall x | x in xs :: HasType(elem, x) && Named(elem, x)
    ensures ConveyElems(kind, elem, acc, elem, xs).Some?
    decreases elem, 1, xs
  {
    if xs != [] {
      BasicReread(elem, xs[0]);
      BasicRereadElems(kind, elem, Insert(kind, acc, Reread(elem, xs[0]).value), xs[1..]);
    }
  }

  lemma {:induction false} BasicRereadAll(ts: seq<Ty>, vs: seq<Val>)
    requires (forall t | t in ts :: Wf(t) && BasicAlternatives(t)) && HasTypes(ts, vs) && AllNamed(ts, vs)
    ensures ConveyAll(ts, Defaults(ts), ts, vs).Some?
    decreases ts, 1
  {
    if ts != [] {
      assert Defaults(ts)[0] == Default(ts[0]) && Defaults(ts)[1..] == Defaults(ts[1..]);
      BasicReread(ts[0], vs[0]);
      BasicRereadAll(ts[1..], vs[1..]);
    }
  }

  /** Variants of basic types, strings and enums are always read back, and sent on as
      they came, even when a string that names an enum value comes back as the enum. */
  lemma BasicVariantsStable(t: Ty, v: Val, rest: seq<Token>)
    requires Wf(t) && BasicAlternatives(t) && Writable(t, v)
    ensures var r := Parse(t, Default(t), Encode(t, v) + rest);
            && r.Ok? && r.rest == rest
            && Parse(t, Default(t), Encode(t, r.value) + rest) == Ok(r.value, rest)
            && (NoKeys(t) ==> Encode(t, r.value) == Encode(t, v))
  {
    BasicIsSimple(t);
    BasicReread(t, v);
    ReadIsConvey(t, Default(t), t, v, rest);
    SettlesAtOnce(t, v, rest);
    WireStable(t, v, rest);
    if NoKeys(t) {
      NoKeysPreserved(t, t, v);
    }
  }

  lemma {:induction false} BasicIsSimple(t: Ty)
    requires BasicAlternatives(t)
    ensures Simple(t)
  {
    match t {
      case Array(_, elem) => BasicIsSimple(elem);
      case Record(_, fields) =>
        forall f | f in fields
          ensures Simple(f)
        {
          BasicIsSimple(f);
        }
      case _ =>
    }
  }

  /** The string that names an enum value does come back as the enum. */
  lemma StringTakenByEnum(m: seq<Enumerator>, name: string, rest: seq<Token>)
    requires WfMapping(m) && HasName(m, name)
    ensures var t, v := Variant([Str, Enum(m)]), VVariant(0, VPrim(Text(name)));
            && Parse(t, Default(t), Encode(t, v) + rest) == Ok(VVariant(1, VEnum(ValueOf(m, name))), rest)
            && !Faithful(t, v)
  {
    var alts := [Str, Enum(m)];
    var t, v := Variant(alts), VVariant(0, VPrim(Text(name)));
    CStringWhole(name);
    ReadIsConvey(t, Default(t), t, v, rest);
    TextVariant(alts, 0, v.held);
    assert Converted(alts[0], name).None? && Converted(alts[1], name) == Some(VEnum(ValueOf(m, name)));
    ProcessIs(alts, 0, name);
    RoundTrips(t, v, rest);
  }

  /** With a nested variant the string is even sent on as another type. */
  lemma StringTakenByNestedVariant(m: seq<Enumerator>, name: string, nested: Ty, t: Ty, rest: seq<Token>)
    requires WfMapping(m) && HasName(m, name) && nested == Variant([Enum(m)]) && t == Variant([Str, nested])
    ensures var v := VVariant(0, VPrim(Text(name)));
            var r := VVariant(1, VVariant(0, VEnum(ValueOf(m, name))));
            && Parse(t, Default(t), Encode(t, v) + rest) == Ok(r, rest)
            && Encode(t, r)[0] == Open(VARIANT, "v") && Encode(t, v)[0] == Open(VARIANT, "s")
  {
    var v := VVariant(0, VPrim(Text(name)));
    CStringWhole(name);
    NestedClaims(m, name, nested, t);
    ReadIsConvey(t, Default(t), t, v, rest);
    TextVariant(t.alts, 0, v.held);
    CStringWhole("v");
    CStringWhole("s");
  }

  lemma NestedClaims(m: seq<Enumerator>, name: string, nested: Ty, t: Ty)
    requires WfMapping(m) && HasName(m, name) && nested == Variant([Enum(m)]) && t == Variant([Str, nested])
    ensures Wf(t) && Process(t.alts, 0, name) == Some(VVariant(1, VVariant(0, VEnum(ValueOf(m, name)))))
  {
    assert Converted(nested.alts[0], name) == Some(VEnum(ValueOf(m, name)));
    ProcessIs(nested.alts, 0, name);
    assert Converted(t.alts[0], name).None? && t.alts[1] == nested;
    ProcessIs(t.alts, 0, name);
  }

  /** And with two nested variants the value does not settle at once: the string is taken by
      the second one, but what is sent on is then read by the first one. */
  lemma NestedNotSettled(m: seq<Enumerator>, name: string, first: Ty, second: Ty, t: Ty, rest: seq<Token>)
    requires WfMapping(m) && HasName(m, name)
    requires first == Variant([Prim(Byte)]) && second == Variant([Enum(m)]) && t == Variant([Str, first, second])
    ensures var v, r := VVariant(0, VPrim(Text(name))), VVariant(2, VVariant(0, VEnum(ValueOf(m, name))));
            && Parse(t, Default(t), Encode(t, v) + rest) == Ok(r, rest)
            && !Faithful(t, r)
  {
    var v := VVariant(0, VPrim(Text(name)));
    CStringWhole(name);
    SecondClaims(m, name, first, second, t);
    ReadIsConvey(t, Default(t), t, v, rest);
    TextVariant(t.alts, 0, v.held);
    assert t.alts[1] == first && t.alts[2] == second && Sig(first) == Sig(second);
  }

  lemma SecondClaims(m: seq<Enumerator>, name: string, first: Ty, second: Ty, t: Ty)
    requires WfMapping(m) && HasName(m, name)
    requires first == Variant([Prim(Byte)]) && second == Variant([Enum(m)]) && t == Variant([Str, first, second])
    ensures Wf(t) && Process(t.alts, 0, name) == Some(VVariant(2, VVariant(0, VEnum(ValueOf(m, name)))))
  {
    assert Converted(second.alts[0], name) == Some(VEnum(ValueOf(m, name)));
    ProcessIs(second.alts, 0, name);
    assert Converted(first.alts[0], name).None?;
    ProcessIs(first.alts, 0, name);
    assert first != second by {
      assert first.alts[0] != second.alts[0];
    }
    assert t.alts[0] == Str && t.alts[1] == first && t.alts[2] == second;
    assert Converted(t.alts[0], name).None? && Converted(t.alts[1], name).None? && Converted(t.alts[2], name).Some?;
    ProcessIs(t.alts, 0, name);
  }
}
