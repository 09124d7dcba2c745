/** Widening the variants inside a type, as for a map of properties whose values are variants:
    on messages whose variants the narrow reader accepts, the wide reader reads the same. */
module Widening {
  import opened Wrappers
  import opened Sequences
  import opened DbusTypes
  import opened DbusValues
  import opened Wire
  import opened Codec
  import opened Choice
  import opened MergeVariants

  /** Type `b` is `a` with alternatives added to some of its variants, at any depth. */
  predicate Widens(a: Ty, b: Ty)
    decreases a, 0
  {
    match a
    case Array(kind, elem) => b.Array? && b.kind == kind && Widens(elem, b.elem)
    case Record(pair, fields) => b.Record? && b.pair == pair && AllWiden(fields, b.fields)
    case Variant(alts) =>
      && b.Variant? && alts != [] && Distinct(alts) && Distinct(b.alts)
      && |alts| <= |b.alts| && AllWiden(alts, b.alts[..|alts|])
    case _ => a == b
  }

  predicate AllWiden(narrow: seq<Ty>, wide: seq<Ty>)
    decreases narrow, 1
  {
    && |narrow| == |wide|
    && (narrow == [] || (Widens(narrow[0], wide[0]) && AllWiden(narrow[1..], wide[1..])))
  }

  lemma {:induction false} AllWidenAt(narrow: seq<Ty>, wide: seq<Ty>, i: nat)
    requires AllWiden(narrow, wide) && i < |narrow|
    ensures Widens(narrow[i], wide[i])
    decreases narrow
  {
    if i > 0 {
      AllWidenAt(narrow[1..], wide[1..], i - 1);
    }
  }

  lemma {:induction false} WidensItself(t: Ty)
    requires t.Monostate? || Wf(t)
    ensures Widens(t, t)
    decreases t, 0
  {
    match t {
      case Array(_, elem) => WidensItself(elem);
      case Record(_, fields) => AllWidenThemselves(fields);
      case Variant(alts) =>
        assert alts[..|alts|] == alts;
        AllWidenThemselves(alts);
      case _ =>
    }
  }

  lemma {:induction false} AllWidenThemselves(ts: seq<Ty>)
    requires forall t | t in ts :: t.Monostate? || Wf(t)
    ensures AllWiden(ts, ts)
    decreases ts, 1
  {
    if ts != [] {
      WidensItself(ts[0]);
      AllWidenThemselves(ts[1..]);
    }
  }

  /** A merged variant widens the first one. */
  lemma MergeWidens(first: seq<Ty>, others: seq<seq<Ty>>)
    requires Wf(Variant(first))
    ensures Widens(Variant(first), Variant(Merge(first, others)))
  {
    MergeExtends(first, others);
    AllWidenThemselves(first);
    assert Merge(first, others)[..|first|] == first;
  }

  /** The wide variant makes the same of a string: the alternative that claims it stays the
      first one and, if it is a variant, again makes the same of it; and where nothing claims
      it, the last resort stays the same. */
  predicate KeepsText(first: seq<Ty>, wide: seq<Ty>, str: string)
    decreases first
  {
    var k := FirstClaim(first, str);
    if k < |first| then
      && FirstClaim(wide, str) == k < |wide|
      && (first[k].Variant? && wide[k].Variant? ==> KeepsText(first[k].alts, wide[k].alts, str))
    else FirstClaim(wide, str) == |wide| && (Str in first || Str !in wide)
  }

  /** The narrow variant has an alternative for the block. */
  predicate Finds(alts: seq<Ty>, s: seq<Token>) {
    s != [] && s[0].Open? && s[0].kind == VARIANT ==> FirstMatch(alts, 0, s[0].contents).Some?
  }

  /** Every variant that the narrow reader comes to takes its block. */
  predicate Accepts(a: Ty, b: Ty, dest: Val, s: seq<Token>)
    decreases a, 0
  {
    match a
    case Array(_, elem) =>
      b.Array? && (Starts(s, ARRAY, CString(Sig(a)[1..])) ==> AcceptsElems(elem, b.elem, s[1..]))
    case Record(pair, fields) =>
      b.Record? && (Starts(s, RecordKind(pair), CString(SigAll(fields))) ==>
                      AcceptsAll(fields, b.fields, Members(dest, fields), s[1..]))
    case Variant(alts) =>
      && b.Variant? && Finds(alts, s)
      && (s != [] && s[0].Open? && s[0].kind == VARIANT ==>
            var j := FirstMatch(alts, 0, s[0].contents).value;
            if ConvertsFromString(alts[j]) then
              ParseText(s[1..]).Ok? ==> KeepsText(alts, b.alts, ParseText(s[1..]).value)
            else j < |b.alts| && Accepts(alts[j], b.alts[j], Default(alts[j]), s[1..]))
    case _ => true
  }

  predicate AcceptsElems(a: Ty, b: Ty, s: seq<Token>)
    decreases a, 1, |s|
  {
    AtEnd(s) || (Accepts(a, b, Default(a), s) &&
                 match Parse(a, Default(a), s)
                 case Err(_) => true
                 case Ok(_, rest) => |rest| < |s| ==> AcceptsElems(a, b, rest))
  }

  predicate AcceptsAll(narrow: seq<Ty>, wide: seq<Ty>, dests: seq<Val>, s: seq<Token>)
    decreases narrow, 1
  {
    narrow == [] || wide == [] || dests == [] ||
    (Accepts(narrow[0], wide[0], dests[0], s) &&
     match Parse(narrow[0], dests[0], s)
     case Err(_) => true
     case Ok(_, rest) => AcceptsAll(narrow[1..], wide[1..], dests[1..], rest))
  }

  // ---------------------------------------------------------------- signatures and defaults

  lemma {:induction false} WideSig(a: Ty, b: Ty)
    requires Widens(a, b)
    ensures Sig(a) == Sig(b) && Default(a) == Default(b)
    decreases a, 0
  {
    match a {
      case Array(_, elem) => WideSig(elem, b.elem);
      case Record(_, fields) => WideSigAll(fields, b.fields);
      case Variant(alts) =>
        AllWidenAt(alts, b.alts[..|alts|], 0);
        WideSig(alts[0], b.alts[0]);
      case _ =>
    }
  }

  lemma {:induction false} WideSigAll(narrow: seq<Ty>, wide: seq<Ty>)
    requires AllWiden(narrow, wide)
    ensures SigAll(narrow) == SigAll(wide) && Defaults(narrow) == Defaults(wide)
    decreases narrow, 1
  {
    if narrow != [] {
      WideSig(narrow[0], wide[0]);
      WideSigAll(narrow[1..], wide[1..]);
    }
  }

  // ---------------------------------------------------------------- the widening theorem

  /** Whatever the message and the destination: the same value, cursor or error. */
  lemma {:induction false} WideReadsSame(a: Ty, b: Ty, dest: Val, s: seq<Token>)
    requires Widens(a, b) && Accepts(a, b, dest, s)
    ensures Parse(b, dest, s) == Parse(a, dest, s)
    decreases a, 0
  {
    WideSig(a, b);
    match a {
      case Array(kind, elem) =>
        if Starts(s, ARRAY, CString(Sig(a)[1..])) {
          WideElems(kind, elem, b.elem, Elems(dest), s[1..]);
        }
      case Record(pair, fields) =>
        WideSigAll(fields, b.fields);
        if Starts(s, RecordKind(pair), CString(SigAll(fields))) {
          WideAll(fields, b.fields, Members(dest, fields), s[1..]);
        }
      case Variant(alts) =>
        if s != [] && s[0].Open? && s[0].kind == VARIANT {
          WideVariant(alts, b.alts, dest, s);
        }
      case _ =>
    }
  }

  lemma {:induction false} WideElems(kind: Container, a: Ty, b: Ty, acc: seq<Val>, s: seq<Token>)
    requires Widens(a, b) && AcceptsElems(a, b, s)
    ensures ParseElems(kind, b, acc, s) == ParseElems(kind, a, acc, s)
    decreases a, 1, |s|
  {
    if !AtEnd(s) {
      WideSig(a, b);
      WideReadsSame(a, b, Default(a), s);
      var r := Parse(a, Default(a), s);
      if r.Ok? && |r.rest| < |s| {
        WideElems(kind, a, b, Insert(kind, acc, r.value), r.rest);
      }
    }
  }

  lemma {:induction false} WideAll(narrow: seq<Ty>, wide: seq<Ty>, dests: seq<Val>, s: seq<Token>)
    requires AllWiden(narrow, wide) && AcceptsAll(narrow, wide, dests, s)
    ensures ParseAll(wide, dests, s) == ParseAll(narrow, dests, s)
    decreases narrow, 1
  {
    if narrow != [] && dests != [] {
      WideReadsSame(narrow[0], wide[0], dests[0], s);
      var r := Parse(narrow[0], dests[0], s);
      if r.Ok? {
        WideAll(narrow[1..], wide[1..], dests[1..], r.rest);
      }
    }
  }

  lemma {:induction false} WideVariant(first: seq<Ty>, wide: seq<Ty>, dest: Val, s: seq<Token>)
    requires Widens(Variant(first), Variant(wide)) && Accepts(Variant(first), Variant(wide), dest, s)
    requires s != [] && s[0].Open? && s[0].kind == VARIANT
    ensures Parse(Variant(wide), dest, s) == Parse(Variant(first), dest, s)
    decreases first, 2
  {
    var j := FirstMatch(first, 0, s[0].contents).value;
    WideMatch(first, wide, s[0].contents);
    AllWidenAt(first, wide[..|first|], j);
    if ConvertsFromString(first[j]) {
      if ParseText(s[1..]).Ok? {
        WideText(first, wide, 0, ParseText(s[1..]).value);
      }
    } else {
      WideSig(first[j], wide[j]);
      WideReadsSame(first[j], wide[j], Default(first[j]), s[1..]);
    }
  }

  lemma WideMatch(first: seq<Ty>, wide: seq<Ty>, contents: string)
    requires |first| <= |wide| && AllWiden(first, wide[..|first|])
    requires FirstMatch(first, 0, contents).Some?
    ensures FirstMatch(wide, 0, contents) == FirstMatch(first, 0, contents)
  {
    var front, more := wide[..|first|], wide[|first|..];
    SameMatch(first, front, 0, contents);
    assert wide == front + more;
    FirstMatchOfPrefix(front, more, 0, contents);
  }

  lemma {:induction false} SameMatch(narrow: seq<Ty>, wide: seq<Ty>, at: nat, contents: string)
    requires AllWiden(narrow, wide)
    ensures FirstMatch(wide, at, contents) == FirstMatch(narrow, at, contents)
    decreases narrow
  {
    if narrow != [] {
      WideSig(narrow[0], wide[0]);
      SameMatch(narrow[1..], wide[1..], at + 1, contents);
    }
  }

  // ---------------------------------------------------------------- strings

  lemma {:induction false} ProcessKind(alts: seq<Ty>, at: nat, str: string)
    ensures Process(alts, at, str).Some? ==> Process(alts, at, str).value.VVariant?
  {
    if alts != [] {
      ProcessKind(alts[1..], at + 1, str);
    }
  }

  lemma ConvertedKind(t: Ty, str: string)
    requires Converted(t, str).Some?
    ensures t.Enum? || t.Variant?
    ensures !Converted(t, str).value.VPrim?
  {
    if t.Variant? {
      ProcessKind(t.alts, 0, str);
    }
  }

  /** The string alternative stays where it is. */
  lemma SameStrIndex(first: seq<Ty>, wide: seq<Ty>)
    requires |first| <= |wide| && AllWiden(first, wide[..|first|])
    ensures if Str in first then StrIndex(wide) == StrIndex(first) < |first| else StrIndex(wide) >= |first|
  {
    forall i | 0 <= i < |first|
      ensures wide[i].Str? <==> first[i].Str?
    {
      AllWidenAt(first, wide[..|first|], i);
    }
    StrFound(first);
  }

  /** The condition on strings is exact. */
  lemma {:induction false} WideText(first: seq<Ty>, wide: seq<Ty>, at: nat, str: string)
    requires Widens(Variant(first), Variant(wide))
    ensures Process(wide, at, str) == Process(first, at, str) <==> KeepsText(first, wide, str)
    decreases first, 1
  {
    ProcessIs(first, at, str);
    ProcessIs(wide, at, str);
    SameStrIndex(first, wide);
    StrFound(wide);
    var k, k' := FirstClaim(first, str), FirstClaim(wide, str);
    if k' < |wide| {
      ConvertedKind(wide[k'], str);
    }
    if k < |first| {
      ConvertedKind(first[k], str);
      WideClaim(first, wide, k, str);
    }
  }

  /** The claim of one alternative. */
  lemma {:induction false} WideClaim(first: seq<Ty>, wide: seq<Ty>, k: nat, str: string)
    requires Widens(Variant(first), Variant(wide)) && k < |first| && Converted(first[k], str).Some?
    ensures Converted(wide[k], str) == Converted(first[k], str)
            <==> (first[k].Variant? && wide[k].Variant? ==> KeepsText(first[k].alts, wide[k].alts, str))
    decreases first, 0
  {
    AllWidenAt(first, wide[..|first|], k);
    if first[k].Variant? {
      WideText(first[k].alts, wide[k].alts, 0, str);
    }
  }
}
