/** The C++ types that sdbusplus carries over D-Bus, and the signature compiler of
    include/sdbusplus/message/types.hpp. */
module DbusTypes {
  import opened Sequences

  /** The basic types with a type code of their own; strings and enums share 's'. */
  datatype Basic =
    | Boolean | Byte | Int16 | UInt16 | Int32 | UInt32 | Int64 | UInt64
    | Double | UnixFd | ObjectPath | Signature

  /** One line of the table generated for an enum: its D-Bus name and its value. */
  datatype Enumerator = Enumerator(name: string, value: int)

  /** `emplace_back` containers, and the two kinds of `emplace` containers. */
  datatype Container = Vector | Set | Map

  datatype Ty =
    | Prim(basic: Basic)
    | Str
    | Enum(mapping: seq<Enumerator>)
    | Array(kind: Container, elem: Ty)
    | Record(pair: bool, fields: seq<Ty>)
    | Variant(alts: seq<Ty>)
    | Monostate

  const NUL := '\0'

  /** What the generator guarantees of an enum table. */
  predicate WfMapping(m: seq<Enumerator>) {
    && (forall i, j | 0 <= i < j < |m| :: m[i].name != m[j].name && m[i].value != m[j].value)
    && (forall i | 0 <= i < |m| :: NUL !in m[i].name)
  }

  /** The types for which both templates compile: the alternatives of a variant are
      distinct, and monostate occurs only as an alternative. */
  predicate Wf(t: Ty) {
    match t
    case Prim(_) => true
    case Str => true
    case Enum(m) => WfMapping(m)
    case Array(kind, elem) => Wf(elem) && (kind.Map? ==> elem.Record? && elem.pair)
    case Record(pair, fields) => (pair ==> |fields| == 2) && forall f | f in fields :: Wf(f)
    case Variant(alts) =>
      alts != [] && Distinct(alts) && forall a | a in alts :: a.Monostate? || Wf(a)
    case Monostate => false
  }

  // ---------------------------------------------------------------- type_id

  function Code(b: Basic): char {
    match b
    case Boolean => 'b'
    case Byte => 'y'
    case Int16 => 'n'
    case UInt16 => 'q'
    case Int32 => 'i'
    case UInt32 => 'u'
    case Int64 => 'x'
    case UInt64 => 't'
    case Double => 'd'
    case UnixFd => 'h'
    case ObjectPath => 'o'
    case Signature => 'g'
  }

  /** The characters of `type_id<T>`, without the terminator. */
  function Sig(t: Ty): string {
    match t
    case Prim(b) => [Code(b)]
    case Str => "s"
    case Enum(_) => "s"
    case Array(_, elem) => "a" + Sig(elem)
    case Record(pair, fields) =>
      if pair then "{" + SigAll(fields) + "}" else "(" + SigAll(fields) + ")"
    case Variant(_) => "v"
    case Monostate => [NUL]
  }

  function SigAll(ts: seq<Ty>): string {
    if ts == [] then "" else Sig(ts[0]) + SigAll(ts[1..])
  }

  // ---------------------------------------------------------------- D-Bus shapes

  /** A D-Bus type: enums and strings are one, and so are all array-like containers. */
  datatype Shape =
    | Leaf(code: char)
    | ArrayOf(elem: Shape)
    | StructOf(dict: bool, fields: seq<Shape>)
    | AnyVariant

  function ShapeOf(t: Ty): Shape {
    match t
    case Prim(b) => Leaf(Code(b))
    case Str => Leaf('s')
    case Enum(_) => Leaf('s')
    case Array(_, elem) => ArrayOf(ShapeOf(elem))
    case Record(pair, fields) => StructOf(pair, ShapeOfAll(fields))
    case Variant(_) => AnyVariant
    case Monostate => Leaf(NUL)
  }

  function ShapeOfAll(ts: seq<Ty>): (r: seq<Shape>)
    ensures |r| == |ts|
  {
    if ts == [] then [] else [ShapeOf(ts[0])] + ShapeOfAll(ts[1..])
  }

  predicate Closes(s: string) {
    s == "" || s[0] == ')' || s[0] == '}'
  }

  lemma SplitHead(p: string, q: string, x: string, y: string)
    requires p != "" && q != "" && p + x == q + y
    ensures p[0] == q[0] && p[1..] + x == q[1..] + y
  {
    assert (p + x)[0] == p[0] && (q + y)[0] == q[0];
    assert (p + x)[1..] == p[1..] + x && (q + y)[1..] == q[1..] + y;
  }

  /** Signatures form a prefix-free code for shapes. */
  lemma {:induction false} PrefixFree(a: Ty, b: Ty, x: string, y: string)
    requires Wf(a) && Wf(b) && Sig(a) + x == Sig(b) + y
    ensures ShapeOf(a) == ShapeOf(b) && x == y
    decreases a, 0
  {
    SplitHead(Sig(a), Sig(b), x, y);
    match a {
      case Array(_, elem) =>
        assert Sig(a)[1..] == Sig(elem) && Sig(b)[1..] == Sig(b.elem);
        PrefixFree(elem, b.elem, x, y);
      case Record(pair, fields) =>
        assert b.Record? && b.pair == pair;
        var close := if pair then "}" else ")";
        RecordBody(a, x);
        RecordBody(b, y);
        PrefixFreeAll(fields, b.fields, close + x, close + y);
        SplitHead(close, close, x, y);
        assert close[1..] + x == x && close[1..] + y == y;
      case Prim(_) | Str | Enum(_) | Variant(_) =>
        assert Sig(a)[1..] + x == x && Sig(b)[1..] + y == y;
    }
  }

  lemma RecordBody(t: Ty, x: string)
    requires t.Record?
    ensures Sig(t)[1..] + x == SigAll(t.fields) + ((if t.pair then "}" else ")") + x)
  {
    assert Sig(t)[1..] == SigAll(t.fields) + if t.pair then "}" else ")";
  }

  /** A concatenation of argument signatures splits in only one way. */
  lemma {:induction false} PrefixFreeAll(left: seq<Ty>, right: seq<Ty>, x: string, y: string)
    requires (forall t | t in left :: Wf(t)) && (forall t | t in right :: Wf(t))
    requires Closes(x) && Closes(y) && SigAll(left) + x == SigAll(right) + y
    ensures ShapeOfAll(left) == ShapeOfAll(right) && x == y
    decreases left, 1
  {
    if left == [] || right == [] {
      SigAllOpens(left, x);
      SigAllOpens(right, y);
    } else {
      SigAllHead(left, x);
      SigAllHead(right, y);
      PrefixFree(left[0], right[0], SigAll(left[1..]) + x, SigAll(right[1..]) + y);
      PrefixFreeAll(left[1..], right[1..], x, y);
    }
  }

  lemma SigAllHead(ts: seq<Ty>, x: string)
    requires ts != []
    ensures SigAll(ts) + x == Sig(ts[0]) + (SigAll(ts[1..]) + x)
  {
  }

  lemma SigAllOpens(ts: seq<Ty>, x: string)
    requires forall t | t in ts :: Wf(t)
    ensures if ts == [] then SigAll(ts) + x == x else !Closes(SigAll(ts) + x)
  {
    assert "" + x == x;
    if ts != [] {
      assert Sig(ts[0]) != "";
      assert (SigAll(ts) + x)[0] == Sig(ts[0])[0];
    }
  }

  lemma {:induction false} ShapeGivesSig(a: Ty, b: Ty)
    requires Wf(a) && Wf(b) && ShapeOf(a) == ShapeOf(b)
    ensures Sig(a) == Sig(b)
    decreases a, 0
  {
    match a {
      case Array(_, elem) => ShapeGivesSig(elem, b.elem);
      case Record(_, fields) => ShapeGivesSigAll(fields, b.fields);
      case _ =>
    }
  }

  lemma {:induction false} ShapeGivesSigAll(left: seq<Ty>, right: seq<Ty>)
    requires (forall t | t in left :: Wf(t)) && (forall t | t in right :: Wf(t))
    requires ShapeOfAll(left) == ShapeOfAll(right)
    ensures SigAll(left) == SigAll(right)
    decreases left, 1
  {
    if left != [] {
      ShapeOfAllHead(left);
      ShapeOfAllHead(right);
      ShapeGivesSig(left[0], right[0]);
      ShapeGivesSigAll(left[1..], right[1..]);
    }
  }

  lemma ShapeOfAllHead(ts: seq<Ty>)
    requires ts != []
    ensures ShapeOfAll(ts)[0] == ShapeOf(ts[0]) && ShapeOfAll(ts)[1..] == ShapeOfAll(ts[1..])
  {
  }

  /** Two types share a signature exactly when they have the same shape. */
  lemma SameSigSameShape(a: Ty, b: Ty)
    requires Wf(a) && Wf(b)
    ensures Sig(a) == Sig(b) <==> ShapeOf(a) == ShapeOf(b)
  {
    if Sig(a) == Sig(b) {
      PrefixFree(a, b, "", "");
    }
    if ShapeOf(a) == ShapeOf(b) {
      ShapeGivesSig(a, b);
    }
  }

  /** Signatures hold no NUL character, so as C strings they are read in full. */
  lemma {:induction false} SigNoNul(t: Ty)
    requires Wf(t)
    ensures NUL !in Sig(t) && Sig(t) != ""
    decreases t, 0
  {
    match t {
      case Array(_, elem) => SigNoNul(elem);
      case Record(_, fields) => SigAllNoNul(fields);
      case _ =>
    }
  }

  lemma {:induction false} SigAllNoNul(ts: seq<Ty>)
    requires forall t | t in ts :: Wf(t)
    ensures NUL !in SigAll(ts)
    decreases ts, 1
  {
    if ts != [] {
      SigNoNul(ts[0]);
      SigAllNoNul(ts[1..]);
    }
  }

  // ---------------------------------------------------------------- enum tables

  /** The first entry with a given name, as `convertStringTo<Enum>` searches it. */
  function FindName(m: seq<Enumerator>, name: string): (i: nat)
    ensures i <= |m|
    ensures i < |m| ==> m[i].name == name
    ensures forall k | 0 <= k < i :: m[k].name != name
  {
    if m == [] then 0
    else if m[0].name == name then 0
    else FindName(m[1..], name) + 1
  }

  /** The first entry with a given value, as `convert<Enum>ToString` searches it. */
  function FindValue(m: seq<Enumerator>, value: int): (i: nat)
    ensures i <= |m|
    ensures i < |m| ==> m[i].value == value
    ensures forall k | 0 <= k < i :: m[k].value != value
  {
    if m == [] then 0
    else if m[0].value == value then 0
    else FindValue(m[1..], value) + 1
  }

  predicate HasName(m: seq<Enumerator>, name: string) {
    FindName(m, name) < |m|
  }

  predicate HasValue(m: seq<Enumerator>, value: int) {
    FindValue(m, value) < |m|
  }

  function NameOf(m: seq<Enumerator>, value: int): string
    requires HasValue(m, value)
  {
    m[FindValue(m, value)].name
  }

  function ValueOf(m: seq<Enumerator>, name: string): int
    requires HasName(m, name)
  {
    m[FindName(m, name)].value
  }

  /** The two lookups undo each other. */
  lemma NameRoundTrip(m: seq<Enumerator>, value: int, name: string)
    requires WfMapping(m)
    ensures HasValue(m, value) ==>
              HasName(m, NameOf(m, value)) && ValueOf(m, NameOf(m, value)) == value
    ensures HasName(m, name) ==>
              HasValue(m, ValueOf(m, name)) && NameOf(m, ValueOf(m, name)) == name
  {
    if HasValue(m, value) {
      var i := FindValue(m, value);
      assert FindName(m, m[i].name) == i;
    }
    if HasName(m, name) {
      var i := FindName(m, name);
      assert FindValue(m, m[i].value) == i;
    }
  }
}
