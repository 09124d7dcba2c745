/** Reading what was written: for a reader and a writer of the same D-Bus shape, parsing
    the written tokens gives exactly the conveyed value and stops just past them. */
module Transfer {
  import opened Wrappers
  import opened DbusTypes
  import opened DbusValues
  import opened Wire
  import opened Codec

  function Outcome<T>(o: Option<T>, rest: seq<Token>): Parsed<T> {
    match o
    case Some(x) => Ok(x, rest)
    case None => Err(InvalidEnumString)
  }

  // ---------------------------------------------------------------- encoded blocks

  lemma EncodeOpens(t: Ty, v: Val, rest: seq<Token>)
    requires Wf(t) && HasType(t, v)
    ensures |Encode(t, v)| > 0 && !AtEnd(Encode(t, v) + rest)
    ensures (Encode(t, v) + rest)[0] == Encode(t, v)[0]
  {
  }

  /** The body of a container and what follows it. */
  lemma EncodeContainer(t: Ty, v: Val, rest: seq<Token>)
    requires HasType(t, v)
    ensures t.Array? ==>
              Encode(t, v) + rest
              == [Open(ARRAY, CString(Sig(t.elem)))] + (EncodeElems(t.elem, v.elems) + ([Close] + rest))
    ensures t.Record? ==>
              Encode(t, v) + rest
              == [Open(RecordKind(t.pair), CString(SigAll(t.fields)))]
                 + (EncodeAll(t.fields, v.members) + ([Close] + rest))
    ensures t.Variant? ==>
              Encode(t, v) + rest
              == [Open(VARIANT, CString(Sig(t.alts[v.index])))]
                 + (Encode(t.alts[v.index], v.held) + ([Close] + rest))
  {
    match t {
      case Array(_, elem) =>
        Bracketed(Open(ARRAY, CString(Sig(elem))), EncodeElems(elem, v.elems), rest);
      case Record(pair, fields) =>
        Bracketed(Open(RecordKind(pair), CString(SigAll(fields))), EncodeAll(fields, v.members), rest);
      case Variant(alts) =>
        Bracketed(Open(VARIANT, CString(Sig(alts[v.index]))), Encode(alts[v.index], v.held), rest);
      case _ =>
    }
  }

  lemma Bracketed(open: Token, body: seq<Token>, rest: seq<Token>)
    ensures [open] + body + [Close] + rest == [open] + (body + ([Close] + rest))
  {
  }

  lemma EncodeElemsHead(elem: Ty, xs: seq<Val>, rest: seq<Token>)
    ensures xs == [] ==> EncodeElems(elem, xs) + rest == rest
    ensures xs != [] ==>
              EncodeElems(elem, xs) + rest == Encode(elem, xs[0]) + (EncodeElems(elem, xs[1..]) + rest)
  {
  }

  lemma EncodeAllHead(ts: seq<Ty>, vs: seq<Val>, rest: seq<Token>)
    ensures ts == [] ==> EncodeAll(ts, vs) + rest == rest
    ensures ts != [] && vs != [] ==>
              EncodeAll(ts, vs) + rest == Encode(ts[0], vs[0]) + (EncodeAll(ts[1..], vs[1..]) + rest)
  {
  }

  /** A written value is one balanced block: skipping counts over it. */
  lemma {:induction false} PastEncode(t: Ty, v: Val, rest: seq<Token>, depth: nat)
    requires HasType(t, v) && Named(t, v) && depth > 0
    ensures Past(Encode(t, v) + rest, depth) == Past(rest, depth)
    decreases t, 0
  {
    EncodeContainer(t, v, rest);
    match t {
      case Array(_, elem) =>
        PastEncodeElems(elem, v.elems, [Close] + rest, depth + 1);
      case Record(_, fields) =>
        PastEncodeAll(fields, v.members, [Close] + rest, depth + 1);
      case Variant(alts) =>
        PastEncode(alts[v.index], v.held, [Close] + rest, depth + 1);
      case Prim(_) | Str | Enum(_) =>
        assert (Encode(t, v) + rest)[1..] == rest;
    }
    if t.Array? || t.Record? || t.Variant? {
      PastClose(rest, depth);
    }
  }

  lemma PastClose(rest: seq<Token>, depth: nat)
    ensures Past([Close] + rest, depth + 1) == Past(rest, depth)
  {
    assert ([Close] + rest)[1..] == rest;
  }

  lemma {:induction false} PastEncodeElems(elem: Ty, xs: seq<Val>, rest: seq<Token>, depth: nat)
    requires (forall x | x in xs :: HasType(elem, x) && Named(elem, x)) && depth > 0
    ensures Past(EncodeElems(elem, xs) + rest, depth) == Past(rest, depth)
    decreases elem, 1, xs
  {
    EncodeElemsHead(elem, xs, rest);
    if xs != [] {
      PastEncode(elem, xs[0], EncodeElems(elem, xs[1..]) + rest, depth);
      PastEncodeElems(elem, xs[1..], rest, depth);
    }
  }

  lemma {:induction false} PastEncodeAll(ts: seq<Ty>, vs: seq<Val>, rest: seq<Token>, depth: nat)
    requires AllWritable(ts, vs) && depth > 0
    ensures Past(EncodeAll(ts, vs) + rest, depth) == Past(rest, depth)
    decreases ts, 1
  {
    EncodeAllHead(ts, vs, rest);
    if ts != [] {
      PastEncode(ts[0], vs[0], EncodeAll(ts[1..], vs[1..]) + rest, depth);
      PastEncodeAll(ts[1..], vs[1..], rest, depth);
    }
  }

  lemma SigWhole(t: Ty)
    requires Wf(t)
    ensures CString(Sig(t)) == Sig(t) && Sig(t) != ""
  {
    SigNoNul(t);
    CStringWhole(Sig(t));
  }

  /** The first match of a complete type is an alternative of its shape, or none. */
  lemma MatchSameShape(alts: seq<Ty>, w: Ty)
    requires (forall a | a in alts :: a.Monostate? || Wf(a)) && Wf(w)
    ensures var m := FirstMatch(alts, 0, Sig(w));
            if m.None? then forall a | a in alts :: Sig(a) != Sig(w)
            else Wf(alts[m.value]) && ShapeOf(alts[m.value]) == ShapeOf(w)
  {
    var m := FirstMatch(alts, 0, Sig(w));
    SigWhole(w);
    NoMatch(alts, w);
    if m.Some? {
      var a := alts[m.value];
      assert a in alts;
      if !a.Monostate? {
        SigWhole(a);
        SameSigSameShape(a, w);
      }
    }
  }

  // ---------------------------------------------------------------- the transfer theorem

  lemma {:induction false} ReadIsConvey(t: Ty, dest: Val, w: Ty, v: Val, rest: seq<Token>)
    requires Wf(t) && Wf(w) && ShapeOf(t) == ShapeOf(w)
    requires HasType(w, v) && Named(w, v)
    ensures Parse(t, dest, Encode(w, v) + rest) == Outcome(Convey(t, dest, w, v), rest)
    decreases t, 0
  {
    match t {
      case Prim(_) | Str | Enum(_) =>
        assert (Encode(w, v) + rest)[1..] == rest;
      case Array(kind, elem) =>
        ReadArrayIsConvey(t, dest, w, v, rest);
      case Record(_, fields) =>
        ReadRecordIsConvey(t, dest, w, v, rest);
      case Variant(alts) =>
        ReadVariantIsConvey(t, dest, w, v, rest);
    }
  }

  lemma {:induction false} ReadArrayIsConvey(t: Ty, dest: Val, w: Ty, v: Val, rest: seq<Token>)
    requires Wf(t) && Wf(w) && t.Array? && ShapeOf(t) == ShapeOf(w)
    requires HasType(w, v) && Named(w, v)
    ensures Parse(t, dest, Encode(w, v) + rest) == Outcome(Convey(t, dest, w, v), rest)
    decreases t.elem, 2
  {
    var after := [Close] + rest;
    EncodeContainer(w, v, rest);
    ShapeGivesSig(t.elem, w.elem);
    assert Sig(t)[1..] == Sig(t.elem);
    ReadElemsIsConvey(t.kind, t.elem, Elems(dest), w.elem, v.elems, after);
    assert after[1..] == rest;
  }

  lemma {:induction false} ReadRecordIsConvey(t: Ty, dest: Val, w: Ty, v: Val, rest: seq<Token>)
    requires Wf(t) && Wf(w) && t.Record? && ShapeOf(t) == ShapeOf(w)
    requires HasType(w, v) && Named(w, v)
    ensures Parse(t, dest, Encode(w, v) + rest) == Outcome(Convey(t, dest, w, v), rest)
    decreases t.fields, 2
  {
    var after := [Close] + rest;
    var body := EncodeAll(w.fields, v.members) + after;
    var dests := Members(dest, t.fields);
    DefaultsLength(t.fields);
    ReadAllIsConvey(t.fields, dests, w.fields, v.members, after);
    assert Parse(t, dest, Encode(w, v) + rest)
           == (match ParseAll(t.fields, dests, body)
               case Err(e) => Err(e)
               case Ok(vs, r) => Exit(VRecord(vs), r)) by {
      EncodeContainer(w, v, rest);
      ShapeGivesSigAll(t.fields, w.fields);
    }
    assert after[1..] == rest;
  }

  lemma {:induction false} DefaultsLength(ts: seq<Ty>)
    ensures |Defaults(ts)| == |ts|
  {
    if ts != [] {
      DefaultsLength(ts[1..]);
    }
  }

  lemma {:induction false} ReadVariantIsConvey(t: Ty, dest: Val, w: Ty, v: Val, rest: seq<Token>)
    requires Wf(t) && Wf(w) && t.Variant? && ShapeOf(t) == ShapeOf(w)
    requires HasType(w, v) && Named(w, v)
    ensures Parse(t, dest, Encode(w, v) + rest) == Outcome(Convey(t, dest, w, v), rest)
    decreases t.alts, 2
  {
    var held := w.alts[v.index];
    assert held in w.alts && Wf(held);
    MatchSameShape(t.alts, held);
    var m := FirstMatch(t.alts, 0, Sig(held));
    if m.None? {
      UnmatchedVariant(t, dest, w, v, rest);
    } else if ConvertsFromString(t.alts[m.value]) {
      ReadTextIsConvey(t, dest, w, v, rest);
    } else {
      ReadMatchIsConvey(t, dest, w, v, m.value, rest);
    }
  }

  lemma {:induction false} ReadMatchIsConvey(t: Ty, dest: Val, w: Ty, v: Val, j: nat, rest: seq<Token>)
    requires t.Variant? && Wf(t) && w.Variant? && Wf(w) && HasType(w, v) && Named(w, v)
    requires FirstMatch(t.alts, 0, Sig(w.alts[v.index])) == Some(j) && !ConvertsFromString(t.alts[j])
    requires Wf(t.alts[j]) && ShapeOf(t.alts[j]) == ShapeOf(w.alts[v.index])
    ensures Parse(t, dest, Encode(w, v) + rest) == Outcome(Convey(t, dest, w, v), rest)
    decreases t.alts, 1
  {
    var own, held := t.alts[j], w.alts[v.index];
    assert own in t.alts && held in w.alts && Wf(held);
    var after := [Close] + rest;
    EncodeContainer(w, v, rest);
    SigWhole(held);
    ReadIsConvey(own, Default(own), held, v.held, after);
    assert after[1..] == rest;
  }

  /** A variant of a wire type that no alternative has is skipped as one block: the
      destination becomes the default and reading goes on just past it. */
  lemma UnmatchedVariant(t: Ty, dest: Val, w: Ty, v: Val, rest: seq<Token>)
    requires t.Variant? && Wf(t) && w.Variant? && Wf(w) && HasType(w, v) && Named(w, v)
    requires forall a | a in t.alts :: Sig(a) != Sig(w.alts[v.index])
    ensures Parse(t, dest, Encode(w, v) + rest) == Ok(Default(t), rest)
  {
    var held := w.alts[v.index];
    assert held in w.alts && Wf(held);
    SigWhole(held);
    NoMatch(t.alts, held);
    var after := [Close] + rest;
    EncodeContainer(w, v, rest);
    PastEncode(held, v.held, after, 1);
    PastClose(rest, 0);
  }

  lemma NoMatch(alts: seq<Ty>, w: Ty)
    requires (forall a | a in alts :: a.Monostate? || Wf(a)) && Wf(w)
    ensures (forall a | a in alts :: Sig(a) != Sig(w)) <==> FirstMatch(alts, 0, Sig(w)).None?
  {
    SigWhole(w);
    forall a | a in alts
      ensures Sig(a) != Sig(w) <==> CString(Sig(a)) != Sig(w)
    {
      if a.Monostate? {
        SigNoNul(w);
        assert Sig(a)[0] == NUL;
      } else {
        SigWhole(a);
      }
    }
    var m := FirstMatch(alts, 0, Sig(w));
    if m.Some? {
      assert alts[m.value] in alts;
    }
  }

  lemma ReadTextIsConvey(t: Ty, dest: Val, w: Ty, v: Val, rest: seq<Token>)
    requires t.Variant? && Wf(t) && w.Variant? && Wf(w) && HasType(w, v) && Named(w, v)
    requires var held := w.alts[v.index];
             var m := FirstMatch(t.alts, 0, Sig(held));
             m.Some? && ConvertsFromString(t.alts[m.value]) && ShapeOf(t.alts[m.value]) == ShapeOf(held)
    ensures Parse(t, dest, Encode(w, v) + rest) == Outcome(Convey(t, dest, w, v), rest)
  {
    var held := w.alts[v.index];
    assert held in w.alts && Wf(held);
    SigWhole(held);
    var after := [Close] + rest;
    EncodeContainer(w, v, rest);
    assert (Encode(held, v.held) + after)[1..] == after;
    assert after[1..] == rest;
  }

  lemma {:induction false} ReadElemsIsConvey(kind: Container, elem: Ty, acc: seq<Val>, w: Ty, xs: seq<Val>,
                                             rest: seq<Token>)
    requires Wf(elem) && Wf(w) && ShapeOf(elem) == ShapeOf(w)
    requires forall x | x in xs :: HasType(w, x) && Named(w, x)
    requires AtEnd(rest)
    ensures ParseElems(kind, elem, acc, EncodeElems(w, xs) + rest)
            == Outcome(ConveyElems(kind, elem, acc, w, xs), rest)
    decreases elem, 1, xs
  {
    EncodeElemsHead(w, xs, rest);
    if xs != [] {
      var tail := EncodeElems(w, xs[1..]) + rest;
      EncodeOpens(w, xs[0], tail);
      ReadIsConvey(elem, Default(elem), w, xs[0], tail);
      var c := Convey(elem, Default(elem), w, xs[0]);
      if c.Some? {
        ReadElemsIsConvey(kind, elem, Insert(kind, acc, c.value), w, xs[1..], rest);
      }
    }
  }

  lemma {:induction false} ReadAllIsConvey(ts: seq<Ty>, dests: seq<Val>, ws: seq<Ty>, vs: seq<Val>,
                                           rest: seq<Token>)
    requires (forall t | t in ts :: Wf(t)) && (forall w | w in ws :: Wf(w))
    requires ShapeOfAll(ts) == ShapeOfAll(ws) && |dests| == |ts|
    requires HasTypes(ws, vs) && AllNamed(ws, vs)
    ensures ParseAll(ts, dests, EncodeAll(ws, vs) + rest) == Outcome(ConveyAll(ts, dests, ws, vs), rest)
    decreases ts, 1
  {
    EncodeAllHead(ws, vs, rest);
    if ts != [] {
      ShapeOfAllHead(ts);
      ShapeOfAllHead(ws);
      var tail := EncodeAll(ws[1..], vs[1..]) + rest;
      ReadIsConvey(ts[0], dests[0], ws[0], vs[0], tail);
      ReadAllIsConvey(ts[1..], dests[1..], ws[1..], vs[1..], rest);
    }
  }

  /** Whole messages: a reader whose arguments announce the signature that was written
      never gets a bus error and never loses its place, whatever the argument types. */
  lemma MessageTransfer(ts: seq<Ty>, dests: seq<Val>, ws: seq<Ty>, vs: seq<Val>, rest: seq<Token>)
    requires (forall t | t in ts :: Wf(t)) && (forall w | w in ws :: Wf(w))
    requires SigAll(ts) == SigAll(ws) && |dests| == |ts|
    requires AllWritable(ws, vs)
    ensures ParseAll(ts, dests, EncodeAll(ws, vs) + rest) == Outcome(ConveyAll(ts, dests, ws, vs), rest)
  {
    PrefixFreeAll(ts, ws, "", "");
    ReadAllIsConvey(ts, dests, ws, vs, rest);
  }

  /** A `std::array` is written as an array but read as a struct, so it is never read back:
      whatever its elements, and whatever the fields expected. */
  lemma StdArrayNeverReadBack(elem: Ty, xs: seq<Val>, fields: seq<Ty>, dest: Val, rest: seq<Token>)
    ensures Parse(Record(false, fields), dest, Encode(Array(Vector, elem), VArray(xs)) + rest) == Err(BusError)
  {
    var s := Encode(Array(Vector, elem), VArray(xs)) + rest;
    assert s[0] == Open(ARRAY, CString(Sig(elem)));
  }
}
