/** The order of the elements of sets and maps: what it is, that it is total on the values of one
    type, and what follows for ordered containers. */
module Ordering {
  import opened DbusTypes
  import opened DbusValues

  // ---------------------------------------------------------------- lexicographic order

  /** The texts agree up to `k`, where the first one ends or has the smaller character. */
  predicate TextDiffersAt(s: string, t: string, k: nat) {
    k <= |s| && k < |t| && s[..k] == t[..k] && (k == |s| || s[k] < t[k])
  }

  lemma {:induction false} LessTextIs(s: string, t: string)
    ensures LessText(s, t) <==> exists k: nat :: TextDiffersAt(s, t, k)
  {
    if s == [] || t == [] {
      if t != [] {
        assert TextDiffersAt(s, t, 0);
      }
    } else {
      LessTextIs(s[1..], t[1..]);
      if s[0] == t[0] && LessText(s[1..], t[1..]) {
        var k: nat :| TextDiffersAt(s[1..], t[1..], k);
        assert s[..k + 1] == [s[0]] + s[1..][..k] && t[..k + 1] == [t[0]] + t[1..][..k];
        assert TextDiffersAt(s, t, k + 1);
      } else if LessText(s, t) {
        assert TextDiffersAt(s, t, 0);
      }
      forall k: nat | TextDiffersAt(s, t, k)
        ensures LessText(s, t)
      {
        if k > 0 {
          assert s[..k][0] == s[0] && t[..k][0] == t[0];
          assert s[1..][..k - 1] == s[..k][1..] && t[1..][..k - 1] == t[..k][1..];
          assert TextDiffersAt(s[1..], t[1..], k - 1);
        }
      }
    }
  }

  predicate DiffersAt(s: seq<Val>, t: seq<Val>, k: nat) {
    k <= |s| && k < |t| && s[..k] == t[..k] && (k == |s| || Less(s[k], t[k]))
  }

  lemma {:induction false} LessSeqIs(s: seq<Val>, t: seq<Val>)
    ensures LessSeq(s, t) <==> exists k: nat :: DiffersAt(s, t, k)
  {
    if s == [] || t == [] {
      if t != [] {
        assert DiffersAt(s, t, 0);
      }
    } else {
      LessSeqIs(s[1..], t[1..]);
      if s[0] == t[0] && LessSeq(s[1..], t[1..]) {
        var k: nat :| DiffersAt(s[1..], t[1..], k);
        assert s[..k + 1] == [s[0]] + s[1..][..k] && t[..k + 1] == [t[0]] + t[1..][..k];
        assert DiffersAt(s, t, k + 1);
      } else if LessSeq(s, t) {
        assert DiffersAt(s, t, 0);
      }
      forall k: nat | DiffersAt(s, t, k)
        ensures LessSeq(s, t)
      {
        if k > 0 {
          assert s[..k][0] == s[0] && t[..k][0] == t[0];
          assert s[1..][..k - 1] == s[..k][1..] && t[1..][..k - 1] == t[..k][1..];
          assert DiffersAt(s[1..], t[1..], k - 1);
        }
      }
    }
  }

  /** Numbers and enum values by value, false before true, texts, sequences and records
      lexicographically, variants by their alternative first. */
  lemma OrderIs(m: int, n: int, q: real, r: real, s: string, t: string, xs: seq<Val>, ys: seq<Val>, u: Val, w: Val)
    ensures Less(VPrim(Num(m)), VPrim(Num(n))) <==> m < n
    ensures Less(VEnum(m), VEnum(n)) <==> m < n
    ensures Less(VPrim(Real(q)), VPrim(Real(r))) <==> q < r
    ensures Less(VBool(false), VBool(true)) && !Less(VBool(true), VBool(false))
    ensures Less(VPrim(Text(s)), VPrim(Text(t))) <==> exists k: nat :: TextDiffersAt(s, t, k)
    ensures Less(VArray(xs), VArray(ys)) <==> exists k: nat :: DiffersAt(xs, ys, k)
    ensures Less(VRecord(xs), VRecord(ys)) <==> exists k: nat :: DiffersAt(xs, ys, k)
    ensures m >= 0 && n >= 0 ==>
              (Less(VVariant(m, u), VVariant(n, w)) <==> m < n || (m == n && Less(u, w)))
  {
    LessTextIs(s, t);
    LessSeqIs(xs, ys);
  }

  // ---------------------------------------------------------------- totality

  lemma {:induction false} LessTextTotal(s: string, t: string)
    ensures LessText(s, t) || LessText(t, s) || s == t
  {
    if s != [] && t != [] {
      LessTextTotal(s[1..], t[1..]);
      assert s == [s[0]] + s[1..] && t == [t[0]] + t[1..];
    }
  }

  /** Of two different values of one type one is less than the other. */
  lemma {:induction false} LessTotal(t: Ty, a: Val, b: Val)
    requires HasType(t, a) && HasType(t, b)
    ensures Less(a, b) || Less(b, a) || a == b
    decreases t, 0
  {
    match t {
      case Prim(basic) =>
        if a.VPrim? && a.p.Text? {
          LessTextTotal(a.p.s, b.p.s);
        }
      case Str => LessTextTotal(a.p.s, b.p.s);
      case Enum(_) =>
      case Array(_, elem) => LessElemsTotal(elem, a.elems, b.elems);
      case Record(_, fields) => LessMembersTotal(fields, a.members, b.members);
      case Variant(alts) =>
        if a.index == b.index {
          LessTotal(alts[a.index], a.held, b.held);
        }
      case Monostate =>
    }
  }

  lemma {:induction false} LessElemsTotal(elem: Ty, s: seq<Val>, t: seq<Val>)
    requires (forall x | x in s :: HasType(elem, x)) && (forall x | x in t :: HasType(elem, x))
    ensures LessSeq(s, t) || LessSeq(t, s) || s == t
    decreases elem, 1, s
  {
    if s != [] && t != [] {
      LessTotal(elem, s[0], t[0]);
      LessElemsTotal(elem, s[1..], t[1..]);
      assert s == [s[0]] + s[1..] && t == [t[0]] + t[1..];
    }
  }

  lemma {:induction false} LessMembersTotal(ts: seq<Ty>, s: seq<Val>, t: seq<Val>)
    requires HasTypes(ts, s) && HasTypes(ts, t)
    ensures LessSeq(s, t) || LessSeq(t, s) || s == t
    decreases ts, 1
  {
    if ts != [] {
      LessTotal(ts[0], s[0], t[0]);
      LessMembersTotal(ts[1..], s[1..], t[1..]);
      assert s == [s[0]] + s[1..] && t == [t[0]] + t[1..];
    }
  }

  // ---------------------------------------------------------------- ordered containers

  /** The entries of a map are pairs. */
  predicate ElemFits(kind: Container, elem: Ty) {
    kind.Map? ==> elem.Record? && |elem.fields| == 2
  }

  lemma KeysTotal(kind: Container, elem: Ty, a: Val, b: Val)
    requires ElemFits(kind, elem) && HasType(elem, a) && HasType(elem, b)
    ensures var k, l := KeyOf(kind, a), KeyOf(kind, b); Less(k, l) || Less(l, k) || k == l
  {
    if kind.Map? {
      assert HasType(elem.fields[0], a.members[0]) && HasType(elem.fields[0], b.members[0]);
      LessTotal(elem.fields[0], a.members[0], b.members[0]);
    } else {
      LessTotal(elem, a, b);
    }
  }

  /** A map never holds two entries with one key, a set no element twice. */
  lemma KeysDiffer(kind: Container, elem: Ty, xs: seq<Val>, i: nat, j: nat)
    requires HasType(Array(kind, elem), VArray(xs)) && ElemFits(kind, elem) && !kind.Vector? && i < j < |xs|
    ensures kind.Set? ==> xs[i] != xs[j]
    ensures kind.Map? ==>
              && xs[i].VRecord? && xs[j].VRecord? && |xs[i].members| == |xs[j].members| == 2
              && xs[i].members[0] != xs[j].members[0]
  {
    var x, y := xs[i], xs[j];
    assert Sorted(kind, xs) && Less(KeyOf(kind, x), KeyOf(kind, y));
    NotLessItself(KeyOf(kind, x));
    assert x in xs && y in xs && HasType(elem, x) && HasType(elem, y);
    assert kind.Map? ==> HasTypes(elem.fields, x.members) && HasTypes(elem.fields, y.members);
  }

  /** An ordered container is determined by what it holds. */
  lemma {:induction false} SortedUnique(kind: Container, s: seq<Val>, t: seq<Val>)
    requires !kind.Vector? && Sorted(kind, s) && Sorted(kind, t) && forall x :: x in s <==> x in t
    ensures s == t
    decreases |s|
  {
    BothEmpty(s, t);
    if s != [] {
      assert s[0] in t && t[0] in s;
      SameFirst(kind, s, t);
      assert s == [s[0]] + s[1..] && t == [t[0]] + t[1..];
      FirstOnce(kind, s);
      FirstOnce(kind, t);
      SortedUnique(kind, s[1..], t[1..]);
    }
  }

  lemma BothEmpty(s: seq<Val>, t: seq<Val>)
    requires forall x :: x in s <==> x in t
    ensures s == [] <==> t == []
  {
    assert (s != [] ==> s[0] in s) && (t != [] ==> t[0] in t);
  }

  lemma FirstOnce(kind: Container, s: seq<Val>)
    requires !kind.Vector? && s != [] && Sorted(kind, s)
    ensures s[0] !in s[1..] && Sorted(kind, s[1..])
    ensures forall x :: x in s[1..] <==> x in s && x != s[0]
  {
    assert s == [s[0]] + s[1..];
    NotLessItself(KeyOf(kind, s[0]));
    assert forall i | 0 <= i < |s[1..]| :: s[1..][i] == s[i + 1];
  }

  lemma SameFirst(kind: Container, s: seq<Val>, t: seq<Val>)
    requires !kind.Vector? && Sorted(kind, s) && Sorted(kind, t) && s != [] && t != [] && s[0] in t && t[0] in s
    ensures s[0] == t[0]
  {
    if s[0] != t[0] {
      LessTransitive(KeyOf(kind, s[0]), KeyOf(kind, t[0]), KeyOf(kind, s[0]));
      NotLessItself(KeyOf(kind, s[0]));
    }
  }
}
