/** Reading into a destination that already holds something: what was there, what arrives, and
    what a set or map makes of both. */
module Filling {
  import opened Wrappers
  import opened Sequences
  import opened DbusTypes
  import opened DbusValues
  import opened Ordering
  import opened Wire
  import opened Codec
  import opened Transfer
  import opened Typing
  import opened TypeTable

  // ---------------------------------------------------------------- one element after the other

  function InsertAll(kind: Container, acc: seq<Val>, cs: seq<Val>): seq<Val>
    decreases cs
  {
    if cs == [] then acc else InsertAll(kind, Insert(kind, acc, cs[0]), cs[1..])
  }

  /** The elements of an array, as they arrive. */
  function ParseEach(elem: Ty, s: seq<Token>): Parsed<seq<Val>>
    decreases |s|
  {
    if AtEnd(s) then Ok([], s)
    else
      match Parse(elem, Default(elem), s)
      case Err(e) => Err(e)
      case Ok(v, rest) =>
        if |rest| >= |s| then Err(BusError)
        else
          match ParseEach(elem, rest)
          case Err(e) => Err(e)
          case Ok(vs, rest') => Ok([v] + vs, rest')
  }

  function Into(kind: Container, acc: seq<Val>, p: Parsed<seq<Val>>): Parsed<seq<Val>> {
    match p
    case Err(e) => Err(e)
    case Ok(cs, rest) => Ok(InsertAll(kind, acc, cs), rest)
  }

  /** The element loop puts what arrives into what is there, in order. */
  lemma {:induction false} ElemsInto(kind: Container, elem: Ty, acc: seq<Val>, s: seq<Token>)
    ensures ParseElems(kind, elem, acc, s) == Into(kind, acc, ParseEach(elem, s))
    decreases |s|
  {
    if !AtEnd(s) {
      var r := Parse(elem, Default(elem), s);
      if r.Ok? && |r.rest| < |s| {
        ElemsInto(kind, elem, Insert(kind, acc, r.value), r.rest);
        var q := ParseEach(elem, r.rest);
        assert q.Ok? ==> ([r.value] + q.value)[1..] == q.value;
      }
    }
  }

  lemma {:induction false} VectorKeepsAll(acc: seq<Val>, cs: seq<Val>)
    ensures InsertAll(Vector, acc, cs) == acc + cs
    decreases cs
  {
    if cs == [] {
      assert acc + cs == acc;
    } else {
      VectorKeepsAll(acc + [cs[0]], cs[1..]);
      assert acc + [cs[0]] + cs[1..] == acc + cs;
    }
  }

  // ---------------------------------------------------------------- sets and maps

  function Keys(kind: Container, s: seq<Val>): set<Val> {
    set x | x in s :: KeyOf(kind, x)
  }

  /** The elements whose keys are not among `known` and did not arrive before: for every new
      key the first element sent for it. */
  function FirstEntries(kind: Container, known: set<Val>, cs: seq<Val>): seq<Val>
    decreases cs
  {
    if cs == [] then []
    else if KeyOf(kind, cs[0]) in known then FirstEntries(kind, known, cs[1..])
    else [cs[0]] + FirstEntries(kind, known + {KeyOf(kind, cs[0])}, cs[1..])
  }

  predicate AllTyped(elem: Ty, s: seq<Val>) {
    forall x | x in s :: HasType(elem, x)
  }

  /** One element: it is taken when its key is new, and everything else stays. */
  lemma {:induction false} InsertIs(kind: Container, elem: Ty, s: seq<Val>, e: Val)
    requires !kind.Vector? && ElemFits(kind, elem) && AllTyped(elem, s) && HasType(elem, e) && Sorted(kind, s)
    ensures forall x :: x in Insert(kind, s, e) <==> x in s || (x == e && KeyOf(kind, e) !in Keys(kind, s))
    decreases s
  {
    if s != [] {
      var k, l := KeyOf(kind, s[0]), KeyOf(kind, e);
      assert s[0] in s && s == [s[0]] + s[1..];
      KeysTotal(kind, elem, s[0], e);
      NotLessItself(l);
      FirstOnce(kind, s);
      InsertIs(kind, elem, s[1..], e);
      assert Keys(kind, s) == {k} + Keys(kind, s[1..]);
      if Less(l, k) {
        NewSmallest(kind, s, e);
      }
    }
  }

  lemma NewSmallest(kind: Container, s: seq<Val>, e: Val)
    requires !kind.Vector? && s != [] && Sorted(kind, s) && Less(KeyOf(kind, e), KeyOf(kind, s[0]))
    ensures KeyOf(kind, e) !in Keys(kind, s)
  {
    forall x | x in s
      ensures KeyOf(kind, x) != KeyOf(kind, e)
    {
      if KeyOf(kind, x) == KeyOf(kind, e) {
        NotLessItself(KeyOf(kind, x));
        if x != s[0] {
          LessTransitive(KeyOf(kind, e), KeyOf(kind, s[0]), KeyOf(kind, x));
        }
      }
    }
  }

  lemma KeysAfterInsert(kind: Container, elem: Ty, s: seq<Val>, e: Val)
    requires !kind.Vector? && ElemFits(kind, elem) && AllTyped(elem, s) && HasType(elem, e) && Sorted(kind, s)
    ensures Keys(kind, Insert(kind, s, e)) == Keys(kind, s) + {KeyOf(kind, e)}
  {
    InsertIs(kind, elem, s, e);
    var r := Insert(kind, s, e);
    forall k | k in Keys(kind, s) + {KeyOf(kind, e)}
      ensures k in Keys(kind, r)
    {
      if k in Keys(kind, s) {
        var x :| x in s && KeyOf(kind, x) == k;
        assert x in r;
      } else {
        assert e in r;
      }
    }
  }

  /** Many elements: what was there stays, and of what arrives the first element for every new
      key is taken; nothing else is there, and nothing is lost. */
  lemma {:induction false} InsertAllIs(kind: Container, elem: Ty, acc: seq<Val>, cs: seq<Val>)
    requires !kind.Vector? && ElemFits(kind, elem) && Sorted(kind, acc) && AllTyped(elem, acc) && AllTyped(elem, cs)
    ensures var r := InsertAll(kind, acc, cs);
            && Sorted(kind, r) && AllTyped(elem, r)
            && forall x :: x in r <==> x in acc || x in FirstEntries(kind, Keys(kind, acc), cs)
    decreases cs
  {
    if cs != [] {
      var c, now := cs[0], Insert(kind, acc, cs[0]);
      assert c in cs;
      InsertSorted(kind, acc, c);
      InsertMembers(kind, acc, c);
      InsertIs(kind, elem, acc, c);
      KeysAfterInsert(kind, elem, acc, c);
      InsertAllIs(kind, elem, now, cs[1..]);
      if KeyOf(kind, c) in Keys(kind, acc) {
        assert Keys(kind, now) == Keys(kind, acc);
      }
    }
  }

  lemma {:induction false} FirstEntriesAre(kind: Container, known: set<Val>, more: set<Val>, cs: seq<Val>)
    ensures forall x :: x in FirstEntries(kind, known + more, cs)
                        <==> x in FirstEntries(kind, known, cs) && KeyOf(kind, x) !in more
    decreases cs
  {
    if cs != [] {
      var k := KeyOf(kind, cs[0]);
      FirstEntriesNew(kind, known + {k}, cs[1..]);
      FirstEntriesAre(kind, known, more, cs[1..]);
      FirstEntriesAre(kind, known + {k}, more, cs[1..]);
      assert known + {k} + more == known + more + {k};
      if k in more {
        assert known + {k} + more == known + more;
      }
    }
  }

  /** Their keys are exactly the new ones. */
  lemma {:induction false} FirstEntriesNew(kind: Container, known: set<Val>, cs: seq<Val>)
    ensures Keys(kind, FirstEntries(kind, known, cs)) == Keys(kind, cs) - known
    decreases cs
  {
    if cs != [] {
      var k := KeyOf(kind, cs[0]);
      assert cs == [cs[0]] + cs[1..] && Keys(kind, cs) == {k} + Keys(kind, cs[1..]);
      FirstEntriesNew(kind, if k in known then known else known + {k}, cs[1..]);
      if k !in known {
        var tail := FirstEntries(kind, known + {k}, cs[1..]);
        assert Keys(kind, [cs[0]] + tail) == {k} + Keys(kind, tail);
      }
    }
  }

  /** No key is lost and none is made up. */
  lemma KeysArrive(kind: Container, elem: Ty, acc: seq<Val>, cs: seq<Val>)
    requires !kind.Vector? && ElemFits(kind, elem) && Sorted(kind, acc) && AllTyped(elem, acc) && AllTyped(elem, cs)
    ensures Keys(kind, InsertAll(kind, acc, cs)) == Keys(kind, acc) + Keys(kind, cs)
  {
    var r, news := InsertAll(kind, acc, cs), FirstEntries(kind, Keys(kind, acc), cs);
    InsertAllIs(kind, elem, acc, cs);
    FirstEntriesNew(kind, Keys(kind, acc), cs);
    KeysOfUnion(kind, r, acc, news);
  }

  lemma KeysOfUnion(kind: Container, r: seq<Val>, s: seq<Val>, t: seq<Val>)
    requires forall x :: x in r <==> x in s || x in t
    ensures Keys(kind, r) == Keys(kind, s) + Keys(kind, t)
  {
    forall k | k in Keys(kind, s)
      ensures k in Keys(kind, r)
    {
      var x :| x in s && KeyOf(kind, x) == k;
      assert x in r;
    }
    forall k | k in Keys(kind, t)
      ensures k in Keys(kind, r)
    {
      var x :| x in t && KeyOf(kind, x) == k;
      assert x in r;
    }
  }

  lemma {:induction false} SortedEntries(kind: Container, known: set<Val>, s: seq<Val>)
    requires !kind.Vector? && Sorted(kind, s)
    ensures forall x :: x in FirstEntries(kind, known, s) <==> x in s && KeyOf(kind, x) !in known
    decreases s
  {
    if s != [] {
      var k := KeyOf(kind, s[0]);
      FirstOnce(kind, s);
      SortedEntries(kind, if k in known then known else known + {k}, s[1..]);
      assert forall x | x in s[1..] :: KeyOf(kind, x) != k by {
        NotLessItself(k);
      }
    }
  }

  /** It makes no difference whether what arrives is put into an empty container first. */
  lemma InsertTwice(kind: Container, elem: Ty, acc: seq<Val>, cs: seq<Val>)
    requires ElemFits(kind, elem) && Sorted(kind, acc) && AllTyped(elem, acc) && AllTyped(elem, cs)
    ensures InsertAll(kind, acc, InsertAll(kind, [], cs)) == InsertAll(kind, acc, cs)
  {
    if kind.Vector? {
      VectorKeepsAll([], cs);
      assert [] + cs == cs;
    } else {
      var first, known := InsertAll(kind, [], cs), Keys(kind, acc);
      InsertAllIs(kind, elem, [], cs);
      InsertAllIs(kind, elem, acc, cs);
      InsertAllIs(kind, elem, acc, first);
      SortedEntries(kind, known, first);
      FirstEntriesAre(kind, {}, known, cs);
      assert {} + known == known && Keys(kind, []) == {};
      SortedUnique(kind, InsertAll(kind, acc, first), InsertAll(kind, acc, cs));
    }
  }

  // ---------------------------------------------------------------- any destination

  /** What is in the destination after reading `v` into it: arrays are filled up, records member
      by member, and everything else is replaced. */
  function Filled(t: Ty, dest: Val, v: Val): Val
    decreases t, 0
  {
    match (t, dest, v)
    case (Array(kind, _), VArray(acc), VArray(cs)) => VArray(InsertAll(kind, acc, cs))
    case (Record(_, fields), VRecord(ds), VRecord(vs)) => VRecord(AllFilled(fields, ds, vs))
    case _ => v
  }

  function AllFilled(ts: seq<Ty>, ds: seq<Val>, vs: seq<Val>): seq<Val>
    decreases ts, 1
  {
    if ts == [] || ds == [] || vs == [] then []
    else [Filled(ts[0], ds[0], vs[0])] + AllFilled(ts[1..], ds[1..], vs[1..])
  }

  function FilledWith(t: Ty, dest: Val, p: Parsed<Val>): Parsed<Val> {
    match p
    case Err(e) => Err(e)
    case Ok(v, rest) => Ok(Filled(t, dest, v), rest)
  }

  function AllFilledWith(ts: seq<Ty>, ds: seq<Val>, p: Parsed<seq<Val>>): Parsed<seq<Val>> {
    match p
    case Err(e) => Err(e)
    case Ok(vs, rest) => Ok(AllFilled(ts, ds, vs), rest)
  }

  /** Reading into a destination is reading into an empty one and filling: the same elements,
      the same rest, the same errors. */
  lemma {:induction false} ReadFills(t: Ty, dest: Val, s: seq<Token>)
    requires Wf(t) && HasType(t, dest) && AllFit(s)
    ensures Parse(t, dest, s) == FilledWith(t, dest, Parse(t, Default(t), s))
    decreases t, 0
  {
    match t {
      case Array(kind, elem) =>
        if Starts(s, ARRAY, CString(Sig(t)[1..])) {
          TailFits(s, 1);
          ArrayFills(kind, elem, dest.elems, s[1..]);
        }
      case Record(pair, fields) =>
        if Starts(s, RecordKind(pair), CString(SigAll(fields))) {
          TailFits(s, 1);
          DefaultsLength(fields);
          assert |dest.members| == |fields|;
          AllFill(fields, dest.members, s[1..]);
        }
      case _ =>
    }
  }

  lemma ArrayFills(kind: Container, elem: Ty, acc: seq<Val>, s: seq<Token>)
    requires Wf(elem) && ElemFits(kind, elem) && Sorted(kind, acc) && AllTyped(elem, acc) && AllFit(s)
    ensures ParseElems(kind, elem, acc, s) == Into(kind, acc, ParseElems(kind, elem, [], s))
  {
    ElemsInto(kind, elem, acc, s);
    ElemsInto(kind, elem, [], s);
    var p := ParseEach(elem, s);
    if p.Ok? {
      EachTyped(elem, s);
      InsertTwice(kind, elem, acc, p.value);
    }
  }

  lemma {:induction false} EachTyped(elem: Ty, s: seq<Token>)
    requires Wf(elem) && AllFit(s)
    ensures ParseEach(elem, s).Ok? ==> AllTyped(elem, ParseEach(elem, s).value)
    decreases |s|
  {
    if !AtEnd(s) {
      DefaultTyped(elem);
      ParseTyped(elem, Default(elem), s);
      var r := Parse(elem, Default(elem), s);
      if r.Ok? && |r.rest| < |s| {
        EachTyped(elem, r.rest);
      }
    }
  }

  lemma {:induction false} AllFill(ts: seq<Ty>, ds: seq<Val>, s: seq<Token>)
    requires (forall t | t in ts :: Wf(t)) && HasTypes(ts, ds) && AllFit(s)
    ensures ParseAll(ts, ds, s) == AllFilledWith(ts, ds, ParseAll(ts, Defaults(ts), s))
    decreases ts, 1
  {
    if ts != [] {
      assert Defaults(ts)[0] == Default(ts[0]) && Defaults(ts)[1..] == Defaults(ts[1..]);
      ReadFills(ts[0], ds[0], s);
      DefaultTyped(ts[0]);
      ParseTyped(ts[0], Default(ts[0]), s);
      var r := Parse(ts[0], Default(ts[0]), s);
      if r.Ok? {
        AllFill(ts[1..], ds[1..], r.rest);
        var q := ParseAll(ts[1..], Defaults(ts[1..]), r.rest);
        assert q.Ok? ==> ([r.value] + q.value)[1..] == q.value;
      }
    }
  }

  // ---------------------------------------------------------------- on any message

  /** For vectors that needs no assumption about the message: the elements there stay in front,
      followed by what an empty destination would get. */
  lemma VectorFills(elem: Ty, acc: seq<Val>, s: seq<Token>)
    ensures var t := Array(Vector, elem);
            Parse(t, VArray(acc), s)
            == match Parse(t, VArray([]), s)
               case Ok(VArray(cs), rest) => Ok(VArray(acc + cs), rest)
               case p => p
  {
    var t := Array(Vector, elem);
    if Starts(s, ARRAY, CString(Sig(t)[1..])) {
      ElemsInto(Vector, elem, acc, s[1..]);
      ElemsInto(Vector, elem, [], s[1..]);
      var p := ParseEach(elem, s[1..]);
      if p.Ok? {
        VectorKeepsAll(acc, p.value);
        VectorKeepsAll([], p.value);
        assert [] + p.value == p.value;
      }
    }
  }
}
