/** The signatures announced when containers are opened, checked against the tokens
    themselves rather than against the C++ types. */
module Announce {
  import opened Wrappers
  import opened DbusTypes
  import opened DbusValues
  import opened Wire
  import opened Codec
  import opened Transfer

  predicate AllEqual(s: seq<string>, x: string) {
    forall i | 0 <= i < |s| :: s[i] == x
  }

  function Concat(s: seq<string>): string {
    if s == [] then "" else s[0] + Concat(s[1..])
  }

  /** The contents announced at an open container agree with the signatures of the values
      found in it. */
  predicate AnnouncedRight(kind: char, contents: string, found: seq<string>) {
    if kind == 'a' then AllEqual(found, contents)
    else if kind == 'v' then found == [contents]
    else (kind == 'r' || kind == 'e') && Concat(found) == contents
  }

  function ContainerSig(kind: char, contents: string): string {
    if kind == 'a' then "a" + contents
    else if kind == 'v' then "v"
    else if kind == 'e' then "{" + contents + "}"
    else "(" + contents + ")"
  }

  /** The signature of the first complete value among the tokens, and the tokens after
      it; `None` when a container is not closed or announces the wrong contents. */
  function Scan(s: seq<Token>): (r: Option<(string, seq<Token>)>)
    ensures r.Some? ==> |r.value.1| < |s|
    decreases |s|, 0
  {
    if s == [] then None
    else
      match s[0]
      case Item(code, _) => Some(([code], s[1..]))
      case Close => None
      case Open(kind, contents) =>
        match ScanBody(s[1..])
        case None => None
        case Some((found, rest)) =>
          if AnnouncedRight(kind, contents, found) then Some((ContainerSig(kind, contents), rest)) else None
  }

  /** The signatures of all the values up to the matching close. */
  function ScanBody(s: seq<Token>): (r: Option<(seq<string>, seq<Token>)>)
    ensures r.Some? ==> |r.value.1| < |s|
    decreases |s|, 1
  {
    if s == [] then None
    else if s[0].Close? then Some(([], s[1..]))
    else
      match Scan(s)
      case None => None
      case Some((first, rest)) =>
        match ScanBody(rest)
        case None => None
        case Some((found, after)) => Some(([first] + found, after))
  }

  /** The signatures of all the values of a whole message. */
  function ScanMessage(s: seq<Token>): Option<seq<string>>
    decreases |s|
  {
    if s == [] then Some([])
    else
      match Scan(s)
      case None => None
      case Some((first, rest)) =>
        match ScanMessage(rest)
        case None => None
        case Some(found) => Some([first] + found)
  }

  /** Every container that `append` opens for a value announces exactly what is written
      in it and is closed again, and the value as a whole has the signature `type_id`. */
  lemma {:induction false} ScanEncode(t: Ty, v: Val, rest: seq<Token>)
    requires Wf(t) && HasType(t, v) && Named(t, v)
    ensures Scan(Encode(t, v) + rest) == Some((Sig(t), rest))
    decreases t, 0
  {
    match t {
      case Array(_, elem) =>
        EncodeContainer(t, v, rest);
        SigWhole(elem);
        ScanElems(elem, v.elems, rest);
      case Record(pair, fields) =>
        ScanRecord(t, v, rest);
      case Variant(alts) =>
        ScanVariant(t, v, rest);
      case Prim(_) | Str | Enum(_) =>
        assert (Encode(t, v) + rest)[1..] == rest;
    }
  }

  lemma {:induction false} ScanRecord(t: Ty, v: Val, rest: seq<Token>)
    requires Wf(t) && t.Record? && HasType(t, v) && Named(t, v)
    ensures Scan(Encode(t, v) + rest) == Some((Sig(t), rest))
    decreases t.fields, 2
  {
    var kind, contents := RecordKind(t.pair), SigAll(t.fields);
    var tail := EncodeAll(t.fields, v.members) + ([Close] + rest);
    var found := ScanFields(t.fields, v.members, rest);
    ScanOpen(kind, contents, tail);
    assert Scan([Open(kind, contents)] + tail) == Some((Sig(t), rest));
    RecordOpens(t, v, rest);
  }

  lemma RecordOpens(t: Ty, v: Val, rest: seq<Token>)
    requires Wf(t) && t.Record? && HasType(t, v)
    ensures Encode(t, v) + rest
            == [Open(RecordKind(t.pair), SigAll(t.fields))] + (EncodeAll(t.fields, v.members) + ([Close] + rest))
  {
    EncodeContainer(t, v, rest);
    SigAllNoNul(t.fields);
    CStringWhole(SigAll(t.fields));
  }

  lemma ScanOpen(kind: char, contents: string, tail: seq<Token>)
    ensures Scan([Open(kind, contents)] + tail)
            == match ScanBody(tail)
               case None => None
               case Some((found, rest)) =>
                 if AnnouncedRight(kind, contents, found) then Some((ContainerSig(kind, contents), rest)) else None
  {
    assert ([Open(kind, contents)] + tail)[1..] == tail;
  }

  lemma {:induction false} ScanVariant(t: Ty, v: Val, rest: seq<Token>)
    requires Wf(t) && t.Variant? && HasType(t, v) && Named(t, v)
    ensures Scan(Encode(t, v) + rest) == Some((Sig(t), rest))
    decreases t.alts, 2
  {
    var held, after := t.alts[v.index], [Close] + rest;
    assert held in t.alts && Named(held, v.held) && Wf(held);
    EncodeContainer(t, v, rest);
    SigWhole(held);
    ScanEncode(held, v.held, after);
    ScanClose(rest);
    ScanStep(held, v.held, after);
  }

  lemma ScanClose(rest: seq<Token>)
    ensures ScanBody([Close] + rest) == Some(([], rest))
  {
    assert ([Close] + rest)[1..] == rest;
  }

  lemma ScanStep(t: Ty, v: Val, after: seq<Token>)
    requires Wf(t) && HasType(t, v) && Scan(Encode(t, v) + after) == Some((Sig(t), after))
    ensures ScanBody(after).Some? ==>
              ScanBody(Encode(t, v) + after) == Some(([Sig(t)] + ScanBody(after).value.0, ScanBody(after).value.1))
  {
    EncodeOpens(t, v, after);
  }

  lemma {:induction false} ScanElems(elem: Ty, xs: seq<Val>, rest: seq<Token>)
    requires Wf(elem) && forall x | x in xs :: HasType(elem, x) && Named(elem, x)
    ensures var r := ScanBody(EncodeElems(elem, xs) + ([Close] + rest));
            r.Some? && AllEqual(r.value.0, Sig(elem)) && r.value.1 == rest
    decreases elem, 1, xs
  {
    EncodeElemsHead(elem, xs, [Close] + rest);
    if xs == [] {
      ScanClose(rest);
    } else {
      var tail := EncodeElems(elem, xs[1..]) + ([Close] + rest);
      ScanEncode(elem, xs[0], tail);
      ScanElems(elem, xs[1..], rest);
      ScanStep(elem, xs[0], tail);
    }
  }

  lemma {:induction false} ScanFields(ts: seq<Ty>, vs: seq<Val>, rest: seq<Token>) returns (found: seq<string>)
    requires (forall t | t in ts :: Wf(t)) && HasTypes(ts, vs) && AllNamed(ts, vs)
    ensures ScanBody(EncodeAll(ts, vs) + ([Close] + rest)) == Some((found, rest))
    ensures Concat(found) == SigAll(ts)
    decreases ts, 1
  {
    EncodeAllHead(ts, vs, [Close] + rest);
    if ts == [] {
      ScanClose(rest);
      found := [];
    } else {
      var tail := EncodeAll(ts[1..], vs[1..]) + ([Close] + rest);
      ScanEncode(ts[0], vs[0], tail);
      var others := ScanFields(ts[1..], vs[1..], rest);
      ScanStep(ts[0], vs[0], tail);
      found := [Sig(ts[0])] + others;
      assert found[1..] == others;
    }
  }

  function Sigs(ts: seq<Ty>): seq<string> {
    if ts == [] then [] else [Sig(ts[0])] + Sigs(ts[1..])
  }

  /** The signature of a whole message is that of the arguments, one after the other. */
  lemma {:induction false} ScanMessageEncode(ts: seq<Ty>, vs: seq<Val>)
    requires (forall t | t in ts :: Wf(t)) && AllWritable(ts, vs)
    ensures ScanMessage(EncodeAll(ts, vs)) == Some(Sigs(ts))
    ensures Concat(Sigs(ts)) == SigAll(ts)
    decreases ts
  {
    if ts != [] {
      ScanEncode(ts[0], vs[0], EncodeAll(ts[1..], vs[1..]));
      EncodeOpens(ts[0], vs[0], EncodeAll(ts[1..], vs[1..]));
      ScanMessageEncode(ts[1..], vs[1..]);
      assert Sigs(ts)[1..] == Sigs(ts[1..]);
    }
  }
}
