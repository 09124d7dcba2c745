/** Which values come back as they were written. */
module RoundTrip {
  import opened Wrappers
  import opened Sequences
  import opened DbusTypes
  import opened DbusValues
  import opened Wire
  import opened Codec
  import opened Transfer
  import opened Choice
  import opened Ranks

  // ---------------------------------------------------------------- faithful values

  predicate TextWhole(v: Val) {
    v.VPrim? && v.p.Text? ==> NUL !in v.p.s
  }

  /** The choice of alternative `i` survives: nothing claims a held string, no earlier
      alternative claims a held enum name, and otherwise no earlier alternative has the
      same signature. */
  predicate ChoiceKept(alts: seq<Ty>, i: nat, held: Val)
    requires i < |alts|
  {
    var own := alts[i];
    if own.Str? then forall j | 0 <= j < |alts| :: Converted(alts[j], TextOf(own, held)).None?
    else if own.Enum? then forall j | 0 <= j < i :: Converted(alts[j], TextOf(own, held)).None?
    else forall j | 0 <= j < i :: Sig(alts[j]) != Sig(own)
  }

  predicate Faithful(t: Ty, v: Val)
    decreases t, 0
  {
    match t
    case Prim(_) => TextWhole(v)
    case Str => TextWhole(v)
    case Enum(_) => true
    case Array(_, elem) => v.VArray? && forall x | x in v.elems :: Faithful(elem, x)
    case Record(_, fields) => v.VRecord? && AllFaithful(fields, v.members)
    case Variant(alts) =>
      v.VVariant? && v.index < |alts| && ChoiceKept(alts, v.index, v.held) && Faithful(alts[v.index], v.held)
    case Monostate => false
  }

  predicate AllFaithful(ts: seq<Ty>, vs: seq<Val>)
    decreases ts, 1
  {
    |ts| == |vs| && (ts == [] || (Faithful(ts[0], vs[0]) && AllFaithful(ts[1..], vs[1..])))
  }

  // ---------------------------------------------------------------- faithful values come back

  lemma {:induction false} RereadFaithful(t: Ty, v: Val)
    requires Wf(t) && HasType(t, v) && Named(t, v)
    ensures Reread(t, v) == Some(v) <==> Faithful(t, v)
    decreases t, 0
  {
    match t {
      case Prim(b) =>
        if v.VPrim? && v.p.Text? {
          CStringWhole(v.p.s);
        }
      case Str => CStringWhole(v.p.s);
      case Enum(m) => EnumReread(m, v.n);
      case Array(kind, elem) => RereadArray(kind, elem, v.elems);
      case Record(_, fields) => RereadAll(fields, v.members);
      case Variant(alts) =>
        assert alts[v.index] in alts;
        RereadFaithful(alts[v.index], v.held);
        RereadVariant(alts, v.index, v.held);
    }
  }

  /** A container comes back only when each of its elements does: nothing that one element
      turns into makes up for another one. */
  lemma {:induction false} RereadArray(kind: Container, elem: Ty, xs: seq<Val>)
    requires Wf(elem) && Sorted(kind, xs) && forall x | x in xs :: HasType(elem, x) && Named(elem, x)
    ensures ConveyElems(kind, elem, [], elem, xs) == Some(xs) <==> forall x | x in xs :: Faithful(elem, x)
    decreases elem, 2
  {
    forall x | x in xs
      ensures Reread(elem, x) == Some(x) <==> Faithful(elem, x)
    {
      RereadFaithful(elem, x);
    }
    if ConveyElems(kind, elem, [], elem, xs) == Some(xs) {
      ReadAsItself(kind, elem, xs);
    } else if forall x | x in xs :: Faithful(elem, x) {
      SettledElems(kind, elem, xs);
    }
  }

  lemma {:induction false} RereadAll(ts: seq<Ty>, vs: seq<Val>)
    requires (forall t | t in ts :: Wf(t)) && HasTypes(ts, vs) && AllNamed(ts, vs)
    ensures ConveyAll(ts, Defaults(ts), ts, vs) == Some(vs) <==> AllFaithful(ts, vs)
    decreases ts, 1
  {
    if ts != [] {
      RereadFaithful(ts[0], vs[0]);
      RereadAll(ts[1..], vs[1..]);
      assert Defaults(ts)[0] == Default(ts[0]) && Defaults(ts)[1..] == Defaults(ts[1..]);
      var c, rest := Reread(ts[0], vs[0]), ConveyAll(ts[1..], Defaults(ts[1..]), ts[1..], vs[1..]);
      if c.Some? && rest.Some? {
        ConsEqual(c.value, rest.value, vs);
      }
    } else {
      assert vs == [];
    }
  }

  lemma RereadVariant(alts: seq<Ty>, i: nat, held: Val)
    requires Wf(Variant(alts)) && i < |alts| && HasType(alts[i], held) && Named(alts[i], held)
    requires Reread(alts[i], held) == Some(held) <==> Faithful(alts[i], held)
    ensures Reread(Variant(alts), VVariant(i, held)) == Some(VVariant(i, held))
            <==> ChoiceKept(alts, i, held) && Faithful(alts[i], held)
  {
    var own := alts[i];
    assert own in alts && Wf(own);
    if ConvertsFromString(own) {
      TextVariant(alts, i, held);
    } else {
      OtherVariant(alts, i, held);
    }
  }

  lemma TextVariant(alts: seq<Ty>, i: nat, held: Val)
    requires Wf(Variant(alts)) && i < |alts| && HasType(alts[i], held) && Named(alts[i], held)
    requires ConvertsFromString(alts[i])
    ensures Reread(Variant(alts), VVariant(i, held)) == Process(alts, 0, TextOf(alts[i], held))
    ensures Process(alts, 0, TextOf(alts[i], held)) == Some(VVariant(i, held))
            <==> ChoiceKept(alts, i, held) && Faithful(alts[i], held)
  {
    assert alts[i] in alts && Wf(alts[i]);
    TextMatch(alts, i);
    TextChoice(alts, i, held);
  }

  lemma TextChoice(alts: seq<Ty>, i: nat, held: Val)
    requires Distinct(alts) && i < |alts| && Wf(alts[i]) && HasType(alts[i], held) && Named(alts[i], held)
    requires ConvertsFromString(alts[i])
    ensures Process(alts, 0, TextOf(alts[i], held)) == Some(VVariant(i, held))
            <==> ChoiceKept(alts, i, held) && Faithful(alts[i], held)
  {
    ProcessIs(alts, 0, TextOf(alts[i], held));
    if alts[i].Enum? {
      EnumReread(alts[i].mapping, held.n);
    } else {
      CStringWhole(held.p.s);
      assert StrIndex(alts) == i;
    }
  }

  lemma OtherVariant(alts: seq<Ty>, i: nat, held: Val)
    requires Wf(Variant(alts)) && i < |alts| && HasType(alts[i], held) && Named(alts[i], held)
    requires !ConvertsFromString(alts[i])
    requires Reread(alts[i], held) == Some(held) <==> Faithful(alts[i], held)
    ensures Reread(Variant(alts), VVariant(i, held)) == Some(VVariant(i, held))
            <==> ChoiceKept(alts, i, held) && Faithful(alts[i], held)
  {
    var own := alts[i];
    assert own in alts && Wf(own);
    MatchSameShape(alts, own);
    SigWhole(own);
    var j := FirstMatch(alts, 0, Sig(own)).value;
    assert !ConvertsFromString(alts[j]);
    if j < i {
      SigWhole(alts[j]);
    } else {
      NoEarlierMatch(alts, i);
    }
  }

  // ---------------------------------------------------------------- the round trip

  /** Reading what was appended gives it back, with the cursor just past it, exactly when
      the value is faithful. */
  lemma RoundTrips(t: Ty, v: Val, rest: seq<Token>)
    requires Wf(t) && Writable(t, v)
    ensures Parse(t, Default(t), Encode(t, v) + rest) == Ok(v, rest) <==> Faithful(t, v)
  {
    ReadIsConvey(t, Default(t), t, v, rest);
    RereadFaithful(t, v);
  }

  /** Every argument of a message comes back exactly when every argument is faithful. */
  lemma MessageRoundTrips(ts: seq<Ty>, vs: seq<Val>, rest: seq<Token>)
    requires (forall t | t in ts :: Wf(t)) && AllWritable(ts, vs)
    ensures ParseAll(ts, Defaults(ts), EncodeAll(ts, vs) + rest) == Ok(vs, rest) <==> AllFaithful(ts, vs)
  {
    DefaultsLength(ts);
    MessageTransfer(ts, Defaults(ts), ts, vs, rest);
    RereadAll(ts, vs);
  }
}
