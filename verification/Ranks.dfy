/** A measure of how far a value still is from the form in which it settles.  Reading a value
    back never raises it, and keeps it only when the value comes back unchanged. */
module Ranks {
  import opened Wrappers
  import opened Sequences
  import opened DbusTypes
  import opened DbusValues
  import opened Wire
  import opened Codec
  import opened Transfer
  import opened Choice

  // ---------------------------------------------------------------- ranks and their order

  /** One number for every depth of nested variants, the outermost first. */
  type Rank = nat -> nat

  ghost predicate AgreeTo(a: Rank, b: Rank, n: nat) {
    forall d: nat | d < n :: a(d) == b(d)
  }

  /** Lexicographic order. */
  ghost predicate Below(a: Rank, b: Rank) {
    forall n: nat :: AgreeTo(a, b, n) ==> a(n) <= b(n)
  }

  ghost predicate Agree(a: Rank, b: Rank) {
    forall n: nat :: a(n) == b(n)
  }

  function Sum(a: Rank, b: Rank): Rank {
    (n: nat) => a(n) + b(n)
  }

  lemma {:induction false} SumAgreeTo(a: Rank, b: Rank, c: Rank, d: Rank, n: nat)
    requires Below(a, b) && Below(c, d) && AgreeTo(Sum(a, c), Sum(b, d), n)
    ensures AgreeTo(a, b, n) && AgreeTo(c, d, n)
    decreases n
  {
    if n > 0 {
      SumAgreeTo(a, b, c, d, n - 1);
      assert Sum(a, c)(n - 1) == Sum(b, d)(n - 1);
    }
  }

  lemma SumBelow(a: Rank, b: Rank, c: Rank, d: Rank)
    requires Below(a, b) && Below(c, d)
    ensures Below(Sum(a, c), Sum(b, d))
    ensures Agree(Sum(a, c), Sum(b, d)) ==> Agree(a, b) && Agree(c, d)
  {
    forall n: nat | AgreeTo(Sum(a, c), Sum(b, d), n)
      ensures Sum(a, c)(n) <= Sum(b, d)(n)
    {
      SumAgreeTo(a, b, c, d, n);
    }
    if Agree(Sum(a, c), Sum(b, d)) {
      forall n: nat
        ensures a(n) == b(n) && c(n) == d(n)
      {
        assert AgreeTo(Sum(a, c), Sum(b, d), n + 1);
        SumAgreeTo(a, b, c, d, n + 1);
      }
    }
  }

  lemma {:induction false} ChainAgreeTo(a: Rank, b: Rank, c: Rank, n: nat)
    requires Below(a, b) && Below(b, c) && AgreeTo(a, c, n)
    ensures AgreeTo(a, b, n) && AgreeTo(b, c, n)
    decreases n
  {
    if n > 0 {
      ChainAgreeTo(a, b, c, n - 1);
      assert a(n - 1) == c(n - 1);
    }
  }

  lemma BelowChain(a: Rank, b: Rank, c: Rank)
    requires Below(a, b) && Below(b, c)
    ensures Below(a, c)
    ensures Agree(a, c) ==> Agree(a, b) && Agree(b, c)
  {
    forall n: nat | AgreeTo(a, c, n)
      ensures a(n) <= c(n)
    {
      ChainAgreeTo(a, b, c, n);
    }
    if Agree(a, c) {
      forall n: nat
        ensures a(n) == b(n) == c(n)
      {
        assert AgreeTo(a, c, n + 1);
        ChainAgreeTo(a, b, c, n + 1);
      }
    }
  }

  lemma SameRank(a: Rank, a': Rank, b: Rank, b': Rank)
    requires Agree(a, a') && Agree(b, b')
    ensures Below(a, b) <==> Below(a', b')
    ensures Agree(a, b) <==> Agree(a', b')
  {
    assert forall n: nat :: AgreeTo(a, b, n) <==> AgreeTo(a', b', n);
  }

  lemma PairBelow(a: Rank, b: Rank, c: Rank, d: Rank, left: Rank, right: Rank)
    requires Below(a, b) && Below(c, d) && Agree(left, Sum(a, c)) && Agree(right, Sum(b, d))
    ensures Below(left, right)
    ensures Agree(left, right) ==> Agree(a, b) && Agree(c, d)
  {
    SumBelow(a, b, c, d);
    SameRank(left, Sum(a, c), right, Sum(b, d));
  }

  /** A rank one level down. */
  function Under(top: nat, a: Rank): Rank {
    (n: nat) => if n == 0 then top else a(n - 1)
  }

  lemma UnderBelow(top: nat, a: Rank, b: Rank)
    requires Below(a, b)
    ensures Below(Under(top, a), Under(top, b))
    ensures Agree(Under(top, a), Under(top, b)) ==> Agree(a, b)
  {
    var c, d := Under(top, a), Under(top, b);
    forall n: nat | AgreeTo(c, d, n)
      ensures c(n) <= d(n)
    {
      if n > 0 {
        assert forall m: nat | m < n - 1 :: a(m) == c(m + 1) && b(m) == d(m + 1);
        assert AgreeTo(a, b, n - 1);
      }
    }
    if Agree(c, d) {
      forall n: nat
        ensures a(n) == b(n)
      {
        assert c(n + 1) == d(n + 1);
      }
    }
  }

  lemma TopBelow(a: Rank, b: Rank)
    requires a(0) < b(0)
    ensures Below(a, b) && !Agree(a, b)
  {
    assert forall n: nat :: AgreeTo(a, b, n) ==> n == 0;
  }

  lemma StepBelow(r: Rank, now: Rank, next: Rank, tail: Rank, total: Rank)
    requires Below(r, Sum(now, tail)) && Below(now, next) && Agree(Sum(next, tail), total)
    ensures Below(r, total)
    ensures Agree(r, total) ==> Agree(r, Sum(now, tail)) && Agree(now, next)
  {
    SumBelow(now, next, tail, tail);
    BelowChain(r, Sum(now, tail), Sum(next, tail));
    SameRank(r, r, Sum(next, tail), total);
  }

  // ---------------------------------------------------------------- the rank of a value

  /** A string alternative is the last resort, so it ranks behind all others. */
  function Position(alts: seq<Ty>, i: nat): nat
    requires i < |alts|
  {
    if alts[i].Str? then |alts| else i
  }

  /** Where a variant stands among its alternatives, summed over the variants at one depth;
      texts count with their length. */
  function Level(t: Ty, v: Val, d: nat): nat
    decreases t, 0
  {
    match (t, v)
    case (Prim(_), VPrim(Text(s))) => if d == 0 then |s| else 0
    case (Str, VPrim(Text(s))) => if d == 0 then |s| else 0
    case (Array(_, elem), VArray(xs)) => LevelElems(elem, xs, d)
    case (Record(_, fields), VRecord(vs)) => LevelAll(fields, vs, d)
    case (Variant(alts), VVariant(i, u)) =>
      if i >= |alts| then 0 else if d == 0 then Position(alts, i) else Level(alts[i], u, d - 1)
    case _ => 0
  }

  function LevelElems(elem: Ty, xs: seq<Val>, d: nat): nat
    decreases elem, 1, xs
  {
    if xs == [] then 0 else Level(elem, xs[0], d) + LevelElems(elem, xs[1..], d)
  }

  function LevelAll(ts: seq<Ty>, vs: seq<Val>, d: nat): nat
    decreases ts, 1
  {
    if ts == [] || vs == [] then 0 else Level(ts[0], vs[0], d) + LevelAll(ts[1..], vs[1..], d)
  }

  function RankOf(t: Ty, v: Val): Rank {
    (d: nat) => Level(t, v, d)
  }

  function RankOfElems(elem: Ty, xs: seq<Val>): Rank {
    (d: nat) => LevelElems(elem, xs, d)
  }

  function RankOfAll(ts: seq<Ty>, vs: seq<Val>): Rank {
    (d: nat) => LevelAll(ts, vs, d)
  }

  lemma {:induction false} InsertLevel(kind: Container, elem: Ty, s: seq<Val>, e: Val, d: nat)
    ensures LevelElems(elem, Insert(kind, s, e), d) <= LevelElems(elem, s, d) + Level(elem, e, d)
    decreases s
  {
    var r := Insert(kind, s, e);
    if kind.Vector? || s == [] {
      LevelConcat(elem, s, [e], d);
    } else {
      InsertLevel(kind, elem, s[1..], e, d);
      assert r == [s[0]] + Insert(kind, s[1..], e) || r == [e] + s || r == s;
      assert ([s[0]] + Insert(kind, s[1..], e))[1..] == Insert(kind, s[1..], e);
      assert ([e] + s)[1..] == s;
    }
  }

  lemma {:induction false} LevelConcat(elem: Ty, s: seq<Val>, t: seq<Val>, d: nat)
    ensures LevelElems(elem, s + t, d) == LevelElems(elem, s, d) + LevelElems(elem, t, d)
    decreases s
  {
    if s == [] {
      assert s + t == t;
    } else {
      assert (s + t)[1..] == s[1..] + t;
      LevelConcat(elem, s[1..], t, d);
    }
  }

  // ---------------------------------------------------------------- rereading sinks

  ghost predicate Sinks(t: Ty, r: Val, v: Val) {
    && Below(RankOf(t, r), RankOf(t, v))
    && (Agree(RankOf(t, r), RankOf(t, v)) ==> r == v)
  }

  lemma ArrayRank(kind: Container, elem: Ty, xs: seq<Val>)
    ensures Agree(RankOf(Array(kind, elem), VArray(xs)), RankOfElems(elem, xs))
  {
  }

  lemma RecordRank(pair: bool, fields: seq<Ty>, vs: seq<Val>)
    ensures Agree(RankOf(Record(pair, fields), VRecord(vs)), RankOfAll(fields, vs))
  {
  }

  lemma HeldRank(alts: seq<Ty>, i: nat, held: Val)
    requires i < |alts|
    ensures Agree(RankOf(Variant(alts), VVariant(i, held)), Under(Position(alts, i), RankOf(alts[i], held)))
  {
  }

  lemma SinksBy(t: Ty, r: Val, v: Val, a: Rank, b: Rank)
    requires Agree(RankOf(t, r), a) && Agree(RankOf(t, v), b)
    requires Below(a, b) && (Agree(a, b) ==> r == v)
    ensures Sinks(t, r, v)
  {
    SameRank(RankOf(t, r), a, RankOf(t, v), b);
  }

  lemma {:induction false} RereadSinks(t: Ty, v: Val)
    requires Wf(t) && HasType(t, v) && Named(t, v) && Reread(t, v).Some?
    ensures Sinks(t, Reread(t, v).value, v)
    decreases t, 0
  {
    var r := Reread(t, v).value;
    match t {
      case Prim(_) =>
        if v.VPrim? && v.p.Text? {
          TextSinks(t, v.p.s);
        }
      case Str => TextSinks(t, v.p.s);
      case Enum(m) => EnumReread(m, v.n);
      case Array(kind, elem) => ArraySinks(kind, elem, v.elems, r.elems);
      case Record(pair, fields) =>
        DefaultsLength(fields);
        RecordSinks(pair, fields, v.members, r.members);
      case Variant(alts) => VariantSinks(alts, v.index, v.held);
    }
  }

  lemma TextSinks(t: Ty, s: string)
    requires t.Prim? || t.Str?
    ensures Sinks(t, VPrim(Text(CString(s))), VPrim(Text(s)))
  {
    var a, b := RankOf(t, VPrim(Text(CString(s)))), RankOf(t, VPrim(Text(s)));
    CStringShorter(s);
    assert a(0) == |CString(s)| && b(0) == |s|;
    forall n: nat | AgreeTo(a, b, n)
      ensures a(n) <= b(n)
    {
    }
  }

  lemma {:induction false} CStringShorter(s: string)
    ensures |CString(s)| < |s| || CString(s) == s
  {
    if s != "" && s[0] != NUL {
      CStringShorter(s[1..]);
      assert s == [s[0]] + s[1..];
    }
  }

  lemma {:induction false} ArraySinks(kind: Container, elem: Ty, xs: seq<Val>, ys: seq<Val>)
    requires Wf(elem) && Sorted(kind, xs) && forall x | x in xs :: HasType(elem, x) && Named(elem, x)
    requires ConveyElems(kind, elem, [], elem, xs) == Some(ys)
    ensures Sinks(Array(kind, elem), VArray(ys), VArray(xs))
    decreases elem, 2
  {
    ElemsSink(kind, elem, [], xs, ys);
    AddNothing(elem, xs, RankOfElems(elem, ys));
    if forall x | x in xs :: Reread(elem, x) == Some(x) {
      SettledElems(kind, elem, xs);
    }
    ArrayRank(kind, elem, xs);
    ArrayRank(kind, elem, ys);
    SinksBy(Array(kind, elem), VArray(ys), VArray(xs), RankOfElems(elem, ys), RankOfElems(elem, xs));
  }

  lemma AddNothing(elem: Ty, xs: seq<Val>, r: Rank)
    ensures var w := Sum(RankOfElems(elem, []), RankOfElems(elem, xs));
            && (Below(r, w) <==> Below(r, RankOfElems(elem, xs)))
            && (Agree(r, w) <==> Agree(r, RankOfElems(elem, xs)))
  {
    SameRank(r, r, Sum(RankOfElems(elem, []), RankOfElems(elem, xs)), RankOfElems(elem, xs));
  }

  lemma {:induction false} RecordSinks(pair: bool, fields: seq<Ty>, vs: seq<Val>, rs: seq<Val>)
    requires (forall f | f in fields :: Wf(f)) && HasTypes(fields, vs) && AllNamed(fields, vs)
    requires ConveyAll(fields, Defaults(fields), fields, vs) == Some(rs)
    ensures Sinks(Record(pair, fields), VRecord(rs), VRecord(vs))
    decreases fields, 2
  {
    var t := Record(pair, fields);
    AllSink(fields, vs, rs);
    RecordRank(pair, fields, rs);
    RecordRank(pair, fields, vs);
    SinksBy(t, VRecord(rs), VRecord(vs), RankOfAll(fields, rs), RankOfAll(fields, vs));
  }

  lemma {:induction false} ElemsSink(kind: Container, elem: Ty, acc: seq<Val>, xs: seq<Val>, ys: seq<Val>)
    requires Wf(elem) && forall x | x in xs :: HasType(elem, x) && Named(elem, x)
    requires ConveyElems(kind, elem, acc, elem, xs) == Some(ys)
    ensures var r, w := RankOfElems(elem, ys), Sum(RankOfElems(elem, acc), RankOfElems(elem, xs));
            && Below(r, w)
            && (Agree(r, w) ==> forall x | x in xs :: Reread(elem, x) == Some(x))
    decreases elem, 1, xs
  {
    if xs != [] {
      var x, tail := xs[0], xs[1..];
      var c := Reread(elem, x).value;
      RereadSinks(elem, x);
      ElemsSink(kind, elem, Insert(kind, acc, c), tail, ys);
      InsertBelow(kind, elem, acc, c, x);
      HeadRank(elem, acc, xs);
      StepBelow(RankOfElems(elem, ys), RankOfElems(elem, Insert(kind, acc, c)),
                Sum(RankOfElems(elem, acc), RankOf(elem, x)),
                RankOfElems(elem, tail), Sum(RankOfElems(elem, acc), RankOfElems(elem, xs)));
    }
  }

  lemma ReadAsItself(kind: Container, elem: Ty, xs: seq<Val>)
    requires Wf(elem) && forall x | x in xs :: HasType(elem, x) && Named(elem, x)
    requires ConveyElems(kind, elem, [], elem, xs) == Some(xs)
    ensures forall x | x in xs :: Reread(elem, x) == Some(x)
  {
    ElemsSink(kind, elem, [], xs, xs);
  }

  /** One element read and inserted. */
  lemma InsertBelow(kind: Container, elem: Ty, acc: seq<Val>, c: Val, x: Val)
    requires Sinks(elem, c, x)
    ensures var now, next := RankOfElems(elem, Insert(kind, acc, c)), Sum(RankOfElems(elem, acc), RankOf(elem, x));
            Below(now, next) && (Agree(now, next) ==> c == x)
  {
    var now, before := RankOfElems(elem, Insert(kind, acc, c)), RankOfElems(elem, acc);
    forall n: nat
      ensures now(n) <= Sum(before, RankOf(elem, c))(n)
    {
      InsertLevel(kind, elem, acc, c, n);
    }
    SumBelow(before, before, RankOf(elem, c), RankOf(elem, x));
    BelowChain(now, Sum(before, RankOf(elem, c)), Sum(before, RankOf(elem, x)));
  }

  lemma HeadRank(elem: Ty, acc: seq<Val>, xs: seq<Val>)
    requires xs != []
    ensures Agree(Sum(Sum(RankOfElems(elem, acc), RankOf(elem, xs[0])), RankOfElems(elem, xs[1..])),
                  Sum(RankOfElems(elem, acc), RankOfElems(elem, xs)))
  {
  }

  lemma {:induction false} AllSink(ts: seq<Ty>, vs: seq<Val>, rs: seq<Val>)
    requires (forall t | t in ts :: Wf(t)) && HasTypes(ts, vs) && AllNamed(ts, vs)
    requires ConveyAll(ts, Defaults(ts), ts, vs) == Some(rs)
    ensures Below(RankOfAll(ts, rs), RankOfAll(ts, vs))
    ensures Agree(RankOfAll(ts, rs), RankOfAll(ts, vs)) ==> rs == vs
    decreases ts, 1
  {
    if ts != [] {
      assert Defaults(ts)[0] == Default(ts[0]) && Defaults(ts)[1..] == Defaults(ts[1..]);
      RereadSinks(ts[0], vs[0]);
      assert rs[0] == Reread(ts[0], vs[0]).value;
      assert ConveyAll(ts[1..], Defaults(ts[1..]), ts[1..], vs[1..]) == Some(rs[1..]);
      AllSink(ts[1..], vs[1..], rs[1..]);
      MembersSink(ts, rs, vs);
      SameParts(rs, vs);
    }
  }

  lemma HeadOfAll(ts: seq<Ty>, vs: seq<Val>)
    requires ts != [] && vs != []
    ensures Agree(RankOfAll(ts, vs), Sum(RankOf(ts[0], vs[0]), RankOfAll(ts[1..], vs[1..])))
  {
  }

  lemma MembersSink(ts: seq<Ty>, rs: seq<Val>, vs: seq<Val>)
    requires ts != [] && rs != [] && vs != [] && Sinks(ts[0], rs[0], vs[0])
    requires Below(RankOfAll(ts[1..], rs[1..]), RankOfAll(ts[1..], vs[1..]))
    ensures Below(RankOfAll(ts, rs), RankOfAll(ts, vs))
    ensures Agree(RankOfAll(ts, rs), RankOfAll(ts, vs)) ==>
              rs[0] == vs[0] && Agree(RankOfAll(ts[1..], rs[1..]), RankOfAll(ts[1..], vs[1..]))
  {
    HeadOfAll(ts, rs);
    HeadOfAll(ts, vs);
    PairBelow(RankOf(ts[0], rs[0]), RankOf(ts[0], vs[0]), RankOfAll(ts[1..], rs[1..]), RankOfAll(ts[1..], vs[1..]),
              RankOfAll(ts, rs), RankOfAll(ts, vs));
  }

  lemma {:induction false} VariantSinks(alts: seq<Ty>, i: nat, held: Val)
    requires Wf(Variant(alts)) && i < |alts| && HasType(alts[i], held) && Named(alts[i], held)
    requires Reread(Variant(alts), VVariant(i, held)).Some?
    ensures Sinks(Variant(alts), Reread(Variant(alts), VVariant(i, held)).value, VVariant(i, held))
    decreases alts, 2
  {
    var own := alts[i];
    assert own in alts && Wf(own);
    var r := Reread(Variant(alts), VVariant(i, held)).value;
    if ConvertsFromString(own) {
      TextMatch(alts, i);
      TextSettles(alts, i, held);
      if own.Str? && r.index == i {
        TextSinks(own, held.p.s);
      }
    } else {
      MatchSameShape(alts, own);
      var j := FirstMatch(alts, 0, Sig(own)).value;
      TextShape(alts[j]);
      TextShape(own);
      if j == i {
        RereadSinks(own, held);
      } else {
        NoLaterMatch(alts, i);
      }
    }
    if r.index == i {
      HeldSinks(alts, i, r.held, held);
    } else {
      MovedSinks(alts, r.index, r.held, i, held);
    }
  }

  /** The alternative chosen for a text is not behind the one that held it. */
  lemma TextSettles(alts: seq<Ty>, i: nat, held: Val)
    requires Wf(Variant(alts)) && i < |alts| && HasType(alts[i], held) && Named(alts[i], held)
    requires ConvertsFromString(alts[i]) && Process(alts, 0, TextOf(alts[i], held)).Some?
    ensures var r := Process(alts, 0, TextOf(alts[i], held)).value;
            && r.VVariant? && r.index < |alts|
            && (if r.index == i then
                  r.held == if alts[i].Enum? then held else VPrim(Text(CString(held.p.s)))
                else Position(alts, r.index) < Position(alts, i))
  {
    assert alts[i] in alts && Wf(alts[i]);
    ProcessIs(alts, 0, TextOf(alts[i], held));
    if alts[i].Enum? {
      EnumReread(alts[i].mapping, held.n);
    }
  }

  lemma NoLaterMatch(alts: seq<Ty>, i: nat)
    requires Wf(Variant(alts)) && i < |alts| && Wf(alts[i])
    ensures var m := FirstMatch(alts, 0, Sig(alts[i])); m.Some? && m.value <= i
  {
    SigWhole(alts[i]);
  }

  /** A variant sinks when it stays and what it holds sinks, or when it moves forward. */
  lemma HeldSinks(alts: seq<Ty>, i: nat, r: Val, held: Val)
    requires i < |alts| && Sinks(alts[i], r, held)
    ensures Sinks(Variant(alts), VVariant(i, r), VVariant(i, held))
  {
    var c, d := RankOf(alts[i], r), RankOf(alts[i], held);
    var top := Position(alts, i);
    UnderBelow(top, c, d);
    HeldRank(alts, i, r);
    HeldRank(alts, i, held);
    SinksBy(Variant(alts), VVariant(i, r), VVariant(i, held), Under(top, c), Under(top, d));
  }

  lemma MovedSinks(alts: seq<Ty>, j: nat, r: Val, i: nat, held: Val)
    requires i < |alts| && j < |alts| && Position(alts, j) < Position(alts, i)
    ensures Sinks(Variant(alts), VVariant(j, r), VVariant(i, held))
  {
    TopBelow(RankOf(Variant(alts), VVariant(j, r)), RankOf(Variant(alts), VVariant(i, held)));
  }

  // ---------------------------------------------------------------- no circles

  /** Each value is read as the next one. */
  predicate Series(t: Ty, vs: seq<Val>) {
    |vs| > 1 ==> Reread(t, vs[0]) == Some(vs[1]) && Series(t, vs[1..])
  }

  /** In a series the rank never rises, and a series that ends where it began holds one value
      only: there are no circles. */
  lemma {:induction false} NoCircle(t: Ty, vs: seq<Val>)
    requires Wf(t) && vs != [] && Series(t, vs) && forall v | v in vs :: HasType(t, v) && Named(t, v)
    ensures Sinks(t, vs[|vs| - 1], vs[0])
    ensures vs[|vs| - 1] == vs[0] ==> forall v | v in vs :: v == vs[0]
    decreases |vs|
  {
    if |vs| > 1 {
      var first, rest := vs[0], vs[1..];
      var last := rest[|rest| - 1];
      assert vs[|vs| - 1] == last && forall v | v in vs :: v == first || v in rest;
      RereadSinks(t, first);
      NoCircle(t, rest);
      BelowChain(RankOf(t, last), RankOf(t, rest[0]), RankOf(t, first));
    }
  }

  /** A set or map holds at most what was inserted. */
  lemma {:induction false} InsertedLevel(kind: Container, elem: Ty, acc: seq<Val>, w: Ty, xs: seq<Val>, d: nat)
    requires ConveyElems(kind, elem, acc, w, xs).Some? && Conveyed(elem, w, xs).Some?
    ensures LevelElems(elem, ConveyElems(kind, elem, acc, w, xs).value, d)
            <= LevelElems(elem, acc, d) + LevelElems(elem, Conveyed(elem, w, xs).value, d)
    decreases xs
  {
    if xs != [] {
      var c, cs := Convey(elem, Default(elem), w, xs[0]).value, Conveyed(elem, w, xs).value;
      InsertLevel(kind, elem, acc, c, d);
      InsertedLevel(kind, elem, Insert(kind, acc, c), w, xs[1..], d);
      assert cs[0] == c && cs[1..] == Conveyed(elem, w, xs[1..]).value;
    }
  }

  lemma {:induction false} ListSinks(elem: Ty, ys: seq<Val>, cs: seq<Val>)
    requires Wf(elem) && |ys| == |cs| && forall y | y in ys :: HasType(elem, y) && Named(elem, y)
    requires forall k | 0 <= k < |ys| :: Reread(elem, ys[k]) == Some(cs[k])
    ensures Below(RankOfElems(elem, cs), RankOfElems(elem, ys))
    ensures Agree(RankOfElems(elem, cs), RankOfElems(elem, ys)) ==> cs == ys
    decreases ys
  {
    if ys != [] {
      assert Reread(elem, ys[0]) == Some(cs[0]);
      RereadSinks(elem, ys[0]);
      ListSinks(elem, ys[1..], cs[1..]);
      HeadOfElems(elem, ys);
      HeadOfElems(elem, cs);
      PairBelow(RankOf(elem, cs[0]), RankOf(elem, ys[0]), RankOfElems(elem, cs[1..]), RankOfElems(elem, ys[1..]),
                RankOfElems(elem, cs), RankOfElems(elem, ys));
      SameParts(cs, ys);
    }
  }

  lemma HeadOfElems(elem: Ty, xs: seq<Val>)
    requires xs != []
    ensures Agree(RankOfElems(elem, xs), Sum(RankOf(elem, xs[0]), RankOfElems(elem, xs[1..])))
  {
  }

  ghost predicate NowhereAbove(a: Rank, b: Rank) {
    forall n: nat :: a(n) <= b(n)
  }

  lemma Squeeze(a: Rank, b: Rank)
    requires Below(a, b) && NowhereAbove(b, a)
    ensures Agree(a, b)
  {
    forall n: nat
      ensures a(n) == b(n)
    {
      SqueezeTo(a, b, n);
    }
  }

  lemma {:induction false} SqueezeTo(a: Rank, b: Rank, n: nat)
    requires Below(a, b) && NowhereAbove(b, a)
    ensures AgreeTo(a, b, n) && a(n) == b(n)
    decreases n
  {
    if n > 0 {
      SqueezeTo(a, b, n - 1);
    }
    assert AgreeTo(a, b, n);
    assert b(n) <= a(n);
  }

  /** Elements cannot change places: if what a set or map took from `xs` is read, one by one,
      as what was taken, then it was taken in that order. */
  lemma TakenInOrder(kind: Container, elem: Ty, ys: seq<Val>, w: Ty, xs: seq<Val>)
    requires Wf(elem) && forall y | y in ys :: HasType(elem, y) && Named(elem, y)
    requires ConveyElems(kind, elem, [], w, xs) == Some(ys) && Conveyed(elem, w, xs).Some?
    requires |Conveyed(elem, w, xs).value| == |ys|
    requires forall k | 0 <= k < |ys| :: Reread(elem, ys[k]) == Some(Conveyed(elem, w, xs).value[k])
    ensures Conveyed(elem, w, xs) == Some(ys)
  {
    var cs := Conveyed(elem, w, xs).value;
    ListSinks(elem, ys, cs);
    var a, b := RankOfElems(elem, cs), RankOfElems(elem, ys);
    forall n: nat
      ensures b(n) <= a(n)
    {
      InsertedLevel(kind, elem, [], w, xs, n);
    }
    assert NowhereAbove(b, a);
    Squeeze(a, b);
  }
}
