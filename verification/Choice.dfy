/** How a variant chooses the alternative for what it reads. */
module Choice {
  import opened Wrappers
  import opened Sequences
  import opened DbusTypes
  import opened DbusValues
  import opened Wire
  import opened Codec
  import opened Transfer

  // ---------------------------------------------------------------- conversion from a string

  /** The first alternative that converts the string: an enum with that name, or a nested
      variant that takes it. */
  function FirstClaim(alts: seq<Ty>, str: string): (k: nat)
    ensures k <= |alts|
    ensures k < |alts| ==> Converted(alts[k], str).Some?
    ensures forall j | 0 <= j < k :: Converted(alts[j], str).None?
  {
    if alts == [] || Converted(alts[0], str).Some? then 0 else FirstClaim(alts[1..], str) + 1
  }

  function StrIndex(alts: seq<Ty>): (k: nat)
    ensures k <= |alts|
    ensures k < |alts| ==> alts[k].Str?
    ensures forall j | 0 <= j < k :: !alts[j].Str?
  {
    if alts == [] || alts[0].Str? then 0 else StrIndex(alts[1..]) + 1
  }

  /** The conversion rule, without the recursion: the first claim wins wherever it stands,
      and a string alternative only takes what nothing else claims. */
  lemma {:induction false} ProcessIs(alts: seq<Ty>, at: nat, str: string)
    requires Distinct(alts)
    ensures var k, i := FirstClaim(alts, str), StrIndex(alts);
            Process(alts, at, str)
            == if k < |alts| then Some(VVariant(at + k, Converted(alts[k], str).value))
               else if i < |alts| then Some(VVariant(at + i, VPrim(Text(str))))
               else None
  {
    if alts != [] {
      assert forall i, j | 0 <= i < j < |alts[1..]| :: alts[1..][i] == alts[i + 1] && alts[1..][j] == alts[j + 1];
      ProcessIs(alts[1..], at + 1, str);
      if alts[0].Str? {
        assert forall j | 0 <= j < |alts[1..]| :: alts[1..][j] == alts[j + 1] != alts[0];
      }
    }
  }

  // ---------------------------------------------------------------- the first match

  lemma TextMatch(alts: seq<Ty>, i: nat)
    requires Wf(Variant(alts)) && i < |alts| && ConvertsFromString(alts[i])
    ensures var m := FirstMatch(alts, 0, Sig(alts[i]));
            m.Some? && ConvertsFromString(alts[m.value])
  {
    assert alts[i] in alts && Wf(alts[i]);
    MatchSameShape(alts, alts[i]);
    TextShape(alts[FirstMatch(alts, 0, Sig(alts[i])).value]);
  }

  lemma TextShape(t: Ty)
    requires Wf(t)
    ensures ShapeOf(t) == Leaf('s') <==> ConvertsFromString(t)
  {
  }

  lemma NoEarlierMatch(alts: seq<Ty>, i: nat)
    requires Wf(Variant(alts)) && i < |alts| && Wf(alts[i]) && FirstMatch(alts, 0, Sig(alts[i])) == Some(i)
    ensures forall j | 0 <= j < i :: Sig(alts[j]) != Sig(alts[i])
  {
    SigWhole(alts[i]);
  }

  // ---------------------------------------------------------------- conveying to oneself

  function Reread(t: Ty, v: Val): Option<Val> {
    Convey(t, Default(t), t, v)
  }

  lemma EnumReread(m: seq<Enumerator>, n: int)
    requires WfMapping(m) && HasValue(m, n)
    ensures TextOf(Enum(m), VEnum(n)) == NameOf(m, n)
    ensures Converted(Enum(m), NameOf(m, n)) == Some(VEnum(n))
  {
    NameRoundTrip(m, n, "");
    CStringWhole(NameOf(m, n));
  }

  lemma CStringOfText(w: Ty, v: Val)
    ensures CString(TextOf(w, v)) == TextOf(w, v)
  {
    match (w, v) {
      case (Enum(m), VEnum(n)) =>
        if HasValue(m, n) {
          CStringTwice(NameOf(m, n));
        }
      case (Str, VPrim(Text(s))) => CStringTwice(s);
      case _ =>
    }
  }

  /** What an enum takes from a string can be written, as the same string. */
  lemma EnumTakes(t: Ty, str: string)
    requires t.Enum? && Wf(t) && CString(str) == str && Converted(t, str).Some?
    ensures var x := Converted(t, str).value;
            HasType(t, x) && Named(t, x) && TextOf(t, x) == str && Reread(t, x) == Some(x)
  {
    NameRoundTrip(t.mapping, 0, str);
  }

  // ---------------------------------------------------------------- elements one by one

  lemma {:induction false} InsertedInOrder(kind: Container, elem: Ty, acc: seq<Val>, w: Ty, xs: seq<Val>)
    requires Conveyed(elem, w, xs).Some? && Sorted(kind, acc + Conveyed(elem, w, xs).value)
    ensures ConveyElems(kind, elem, acc, w, xs) == Some(acc + Conveyed(elem, w, xs).value)
    decreases xs
  {
    var cs := Conveyed(elem, w, xs).value;
    if xs == [] {
      assert acc + cs == acc;
    } else {
      var now := acc + [cs[0]];
      assert acc + cs == now + cs[1..];
      SortedParts(kind, now, cs[1..]);
      InsertLast(kind, acc, cs[0]);
      InsertedInOrder(kind, elem, now, w, xs[1..]);
    }
  }

  /** Values that are read back one by one, in key order, make up the same container. */
  lemma SettledElems(kind: Container, elem: Ty, xs: seq<Val>)
    requires Sorted(kind, xs) && forall x | x in xs :: Reread(elem, x) == Some(x)
    ensures ConveyElems(kind, elem, [], elem, xs) == Some(xs)
  {
    ConveyedToThemselves(elem, xs);
    assert [] + xs == xs;
    InsertedInOrder(kind, elem, [], elem, xs);
  }

  lemma {:induction false} ConveyedToThemselves(elem: Ty, xs: seq<Val>)
    requires forall x | x in xs :: Reread(elem, x) == Some(x)
    ensures Conveyed(elem, elem, xs) == Some(xs)
  {
    if xs != [] {
      assert Reread(elem, xs[0]) == Some(xs[0]);
      ConveyedToThemselves(elem, xs[1..]);
      assert xs == [xs[0]] + xs[1..];
    }
  }

  lemma {:induction false} AllConveyed(kind: Container, elem: Ty, acc: seq<Val>, w: Ty, xs: seq<Val>)
    requires ConveyElems(kind, elem, acc, w, xs).Some?
    ensures Conveyed(elem, w, xs).Some?
    decreases xs
  {
    if xs != [] {
      var c := Convey(elem, Default(elem), w, xs[0]).value;
      AllConveyed(kind, elem, Insert(kind, acc, c), w, xs[1..]);
    }
  }

  lemma {:induction false} ConveyedAt(elem: Ty, w: Ty, xs: seq<Val>, i: nat)
    requires i < |xs| && Conveyed(elem, w, xs).Some?
    ensures |Conveyed(elem, w, xs).value| == |xs|
    ensures Convey(elem, Default(elem), w, xs[i]) == Some(Conveyed(elem, w, xs).value[i])
    decreases xs
  {
    if i > 0 {
      ConveyedAt(elem, w, xs[1..], i - 1);
    } else if |xs| > 1 {
      ConveyedAt(elem, w, xs[1..], 0);
    }
  }
}
