/** Values of the C++ types of `DbusTypes`, and the containers that hold them. */
module DbusValues {
  import opened DbusTypes

  /** What one basic sd-bus call carries. */
  datatype Payload = Num(n: int) | Real(r: real) | Text(s: string)

  datatype Val =
    | VPrim(p: Payload)
    | VBool(b: bool)
    | VEnum(n: int)
    | VArray(elems: seq<Val>)
    | VRecord(members: seq<Val>)
    | VVariant(index: nat, held: Val)
    | VMono

  // ---------------------------------------------------------------- ordered containers

  /** `operator<` of the key types: numbers, text by character, and everything else
      lexicographically. */
  predicate Less(a: Val, b: Val)
    decreases a, 0
  {
    match (a, b)
    case (VPrim(Num(m)), VPrim(Num(n))) => m < n
    case (VPrim(Real(q)), VPrim(Real(r))) => q < r
    case (VPrim(Text(s)), VPrim(Text(t))) => LessText(s, t)
    case (VBool(p), VBool(q)) => !p && q
    case (VEnum(m), VEnum(n)) => m < n
    case (VArray(s), VArray(t)) => LessSeq(s, t)
    case (VRecord(s), VRecord(t)) => LessSeq(s, t)
    case (VVariant(i, u), VVariant(j, w)) => i < j || (i == j && Less(u, w))
    case _ => false
  }

  predicate LessText(s: string, t: string) {
    t != "" && (s == "" || s[0] < t[0] || (s[0] == t[0] && LessText(s[1..], t[1..])))
  }

  predicate LessSeq(s: seq<Val>, t: seq<Val>)
    decreases s, 1
  {
    && t != []
    && (s == [] || Less(s[0], t[0]) || (s[0] == t[0] && LessSeq(s[1..], t[1..])))
  }

  /** A map orders its entries by their first member, a set by the whole element. */
  function KeyOf(kind: Container, v: Val): Val {
    if kind.Map? && v.VRecord? && v.members != [] then v.members[0] else v
  }

  /** The elements of a set or map stand in strictly ascending key order. */
  predicate Sorted(kind: Container, s: seq<Val>) {
    kind.Vector? || forall i, j | 0 <= i < j < |s| :: Less(KeyOf(kind, s[i]), KeyOf(kind, s[j]))
  }

  /** `emplace_back` for a vector; `emplace` otherwise, which keeps the entry that is
      already there when the keys are equivalent. */
  function Insert(kind: Container, s: seq<Val>, e: Val): seq<Val> {
    if kind.Vector? || s == [] then s + [e]
    else if Less(KeyOf(kind, s[0]), KeyOf(kind, e)) then [s[0]] + Insert(kind, s[1..], e)
    else if Less(KeyOf(kind, e), KeyOf(kind, s[0])) then [e] + s
    else s
  }

  /** Elements that arrive in key order are kept in that order. */
  lemma {:induction false} InsertLast(kind: Container, s: seq<Val>, e: Val)
    requires Sorted(kind, s + [e])
    ensures Insert(kind, s, e) == s + [e]
  {
    if !kind.Vector? && s != [] {
      var whole := s + [e];
      assert whole[0] == s[0] && whole[|s|] == e;
      assert whole[1..] == s[1..] + [e];
      SortedParts(kind, [s[0]], whole[1..]);
      InsertLast(kind, s[1..], e);
    }
  }

  lemma SortedParts(kind: Container, s: seq<Val>, t: seq<Val>)
    requires Sorted(kind, s + t)
    ensures Sorted(kind, s) && Sorted(kind, t)
  {
    var u := s + t;
    assert forall i | 0 <= i < |s| :: s[i] == u[i];
    assert forall i | 0 <= i < |t| :: t[i] == u[|s| + i];
  }

  lemma {:induction false} LessTextTransitive(s: string, t: string, u: string)
    requires LessText(s, t) && LessText(t, u)
    ensures LessText(s, u)
  {
    if s != [] && s[0] == t[0] && t[0] == u[0] {
      LessTextTransitive(s[1..], t[1..], u[1..]);
    }
  }

  lemma {:induction false} LessTransitive(a: Val, b: Val, c: Val)
    requires Less(a, b) && Less(b, c)
    ensures Less(a, c)
    decreases a, 0
  {
    match (a, b, c)
    case (VPrim(Text(s)), VPrim(Text(t)), VPrim(Text(u))) => LessTextTransitive(s, t, u);
    case (VArray(s), VArray(t), VArray(u)) => LessSeqTransitive(s, t, u);
    case (VRecord(s), VRecord(t), VRecord(u)) => LessSeqTransitive(s, t, u);
    case (VVariant(i, x), VVariant(j, y), VVariant(k, z)) =>
      if i == j == k {
        LessTransitive(x, y, z);
      }
    case _ =>
  }

  lemma {:induction false} LessSeqTransitive(s: seq<Val>, t: seq<Val>, u: seq<Val>)
    requires LessSeq(s, t) && LessSeq(t, u)
    ensures LessSeq(s, u)
    decreases s, 1
  {
    if s != [] {
      if Less(s[0], t[0]) && Less(t[0], u[0]) {
        LessTransitive(s[0], t[0], u[0]);
      } else if s[0] == t[0] == u[0] && LessSeq(s[1..], t[1..]) && LessSeq(t[1..], u[1..]) {
        LessSeqTransitive(s[1..], t[1..], u[1..]);
      }
    }
  }

  lemma {:induction false} NotLessItself(a: Val)
    ensures !Less(a, a)
    decreases a, 0
  {
    match a
    case VPrim(Text(s)) => NotLessTextItself(s);
    case VArray(s) => NotLessSeqItself(s);
    case VRecord(s) => NotLessSeqItself(s);
    case VVariant(_, x) => NotLessItself(x);
    case _ =>
  }

  lemma {:induction false} NotLessTextItself(s: string)
    ensures !LessText(s, s)
  {
    if s != "" {
      NotLessTextItself(s[1..]);
    }
  }

  lemma {:induction false} NotLessSeqItself(s: seq<Val>)
    ensures !LessSeq(s, s)
    decreases s, 1
  {
    if s != [] {
      NotLessItself(s[0]);
      NotLessSeqItself(s[1..]);
    }
  }

  lemma {:induction false} InsertMembers(kind: Container, s: seq<Val>, e: Val)
    ensures forall x | x in Insert(kind, s, e) :: x in s || x == e
  {
    if s != [] {
      InsertMembers(kind, s[1..], e);
    }
  }

  lemma {:induction false} InsertSorted(kind: Container, s: seq<Val>, e: Val)
    requires Sorted(kind, s)
    ensures Sorted(kind, Insert(kind, s, e))
  {
    if !kind.Vector? && s != [] {
      assert forall i | 0 <= i < |s[1..]| :: s[1..][i] == s[i + 1];
      if Less(KeyOf(kind, s[0]), KeyOf(kind, e)) {
        InsertSorted(kind, s[1..], e);
        InsertMembers(kind, s[1..], e);
        ConsSorted(kind, s[0], Insert(kind, s[1..], e));
      } else if Less(KeyOf(kind, e), KeyOf(kind, s[0])) {
        forall x | x in s
          ensures Less(KeyOf(kind, e), KeyOf(kind, x))
        {
          if x != s[0] {
            LessTransitive(KeyOf(kind, e), KeyOf(kind, s[0]), KeyOf(kind, x));
          }
        }
        ConsSorted(kind, e, s);
      }
    }
  }

  lemma ConsSorted(kind: Container, e: Val, s: seq<Val>)
    requires Sorted(kind, s) && forall x | x in s :: Less(KeyOf(kind, e), KeyOf(kind, x))
    ensures Sorted(kind, [e] + s)
  {
    assert forall i | 0 < i < |s| + 1 :: ([e] + s)[i] == s[i - 1] && s[i - 1] in s;
  }

  // ---------------------------------------------------------------- typing

  predicate InRange(b: Basic, n: int) {
    match b
    case Byte => 0 <= n < 0x100
    case Int16 => -0x8000 <= n < 0x8000
    case UInt16 => 0 <= n < 0x1_0000
    case Int32 => -0x8000_0000 <= n < 0x8000_0000
    case UInt32 => 0 <= n < 0x1_0000_0000
    case Int64 => -0x8000_0000_0000_0000 <= n < 0x8000_0000_0000_0000
    case UInt64 => 0 <= n < 0x1_0000_0000_0000_0000
    case UnixFd => -0x8000_0000 <= n < 0x8000_0000
    case _ => false
  }

  predicate BasicHasType(b: Basic, v: Val) {
    match b
    case Boolean => v.VBool?
    case Double => v.VPrim? && v.p.Real?
    case ObjectPath => v.VPrim? && v.p.Text?
    case Signature => v.VPrim? && v.p.Text?
    case _ => v.VPrim? && v.p.Num? && InRange(b, v.p.n)
  }

  predicate HasType(t: Ty, v: Val)
    decreases t, 0
  {
    match t
    case Prim(b) => BasicHasType(b, v)
    case Str => v.VPrim? && v.p.Text?
    case Enum(_) => v.VEnum?
    case Array(kind, elem) =>
      v.VArray? && Sorted(kind, v.elems) && forall x | x in v.elems :: HasType(elem, x)
    case Record(_, fields) => v.VRecord? && HasTypes(fields, v.members)
    case Variant(alts) => v.VVariant? && v.index < |alts| && HasType(alts[v.index], v.held)
    case Monostate => v.VMono?
  }

  predicate HasTypes(ts: seq<Ty>, vs: seq<Val>)
    decreases ts, 1
  {
    |ts| == |vs| && (ts == [] || (HasType(ts[0], vs[0]) && HasTypes(ts[1..], vs[1..])))
  }

  /** Every enum value held has a name, and no monostate is held: converting an
      unnamed enum value throws, and monostate has no append operation. */
  predicate Named(t: Ty, v: Val)
    decreases t, 0
  {
    match t
    case Enum(m) => v.VEnum? && HasValue(m, v.n)
    case Array(_, elem) => v.VArray? && forall x | x in v.elems :: Named(elem, x)
    case Record(_, fields) => v.VRecord? && AllNamed(fields, v.members)
    case Variant(alts) => v.VVariant? && v.index < |alts| && Named(alts[v.index], v.held)
    case Monostate => false
    case _ => true
  }

  predicate AllNamed(ts: seq<Ty>, vs: seq<Val>)
    decreases ts, 1
  {
    |ts| == |vs| && (ts == [] || (Named(ts[0], vs[0]) && AllNamed(ts[1..], vs[1..])))
  }

  /** The values that `append` writes without throwing. */
  predicate Writable(t: Ty, v: Val) {
    HasType(t, v) && Named(t, v)
  }

  predicate AllWritable(ts: seq<Ty>, vs: seq<Val>) {
    HasTypes(ts, vs) && AllNamed(ts, vs)
  }

  // ---------------------------------------------------------------- defaults

  function DefaultBasic(b: Basic): Val {
    match b
    case Boolean => VBool(false)
    case Double => VPrim(Real(0.0))
    case ObjectPath => VPrim(Text(""))
    case Signature => VPrim(Text(""))
    case _ => VPrim(Num(0))
  }

  /** The value-initialised object that `read` fills in. */
  function Default(t: Ty): Val
    decreases t, 0
  {
    match t
    case Prim(b) => DefaultBasic(b)
    case Str => VPrim(Text(""))
    case Enum(_) => VEnum(0)
    case Array(_, _) => VArray([])
    case Record(_, fields) => VRecord(Defaults(fields))
    case Variant(alts) => if alts == [] then VMono else VVariant(0, Default(alts[0]))
    case Monostate => VMono
  }

  function Defaults(ts: seq<Ty>): seq<Val>
    decreases ts, 1
  {
    if ts == [] then [] else [Default(ts[0])] + Defaults(ts[1..])
  }
}
