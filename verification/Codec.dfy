/** What `append` writes (include/sdbusplus/message/append.hpp) and what `read` makes of
    a token stream (include/sdbusplus/message/read.hpp), as functions. */
module Codec {
  import opened Wrappers
  import opened DbusTypes
  import opened DbusValues
  import opened Wire

  // ---------------------------------------------------------------- append

  /** A boolean travels as an integer, text as a C string. */
  function ToPayload(b: Basic, v: Val): Payload {
    match v
    case VBool(x) => Num(if x then 1 else 0)
    case VPrim(Text(s)) => Text(CString(s))
    case VPrim(p) => p
    case _ => Num(0)
  }

  function FromPayload(b: Basic, p: Payload): Val {
    if b.Boolean? then VBool(p != Num(0)) else VPrim(p)
  }

  /** The string that stands for an enum value or a string on the bus. */
  function TextOf(t: Ty, v: Val): string {
    match (t, v)
    case (Enum(m), VEnum(n)) => if HasValue(m, n) then CString(NameOf(m, n)) else ""
    case (Str, VPrim(Text(s))) => CString(s)
    case _ => ""
  }

  function RecordKind(pair: bool): char {
    if pair then DICT_ENTRY else STRUCT
  }

  function Encode(t: Ty, v: Val): seq<Token>
    decreases t, 0
  {
    match (t, v)
    case (Prim(b), _) => [Item(Code(b), ToPayload(b, v))]
    case (Str, _) => [Item('s', Text(TextOf(t, v)))]
    case (Enum(_), _) => [Item('s', Text(TextOf(t, v)))]
    case (Array(_, elem), VArray(xs)) =>
      [Open(ARRAY, CString(Sig(elem)))] + EncodeElems(elem, xs) + [Close]
    case (Record(pair, fields), VRecord(vs)) =>
      [Open(RecordKind(pair), CString(SigAll(fields)))] + EncodeAll(fields, vs) + [Close]
    case (Variant(alts), VVariant(i, u)) =>
      if i < |alts| then [Open(VARIANT, CString(Sig(alts[i])))] + Encode(alts[i], u) + [Close]
      else []
    case _ => []
  }

  function EncodeElems(elem: Ty, xs: seq<Val>): seq<Token>
    decreases elem, 1, xs
  {
    if xs == [] then [] else Encode(elem, xs[0]) + EncodeElems(elem, xs[1..])
  }

  /** The variadic `append`. */
  function EncodeAll(ts: seq<Ty>, vs: seq<Val>): seq<Token>
    decreases ts, 1
  {
    if ts == [] || vs == [] then [] else Encode(ts[0], vs[0]) + EncodeAll(ts[1..], vs[1..])
  }

  // ---------------------------------------------------------------- variants of strings

  /** `convert_from_string<std::variant<Types...>>::process`: enums and nested variants are
      tried in order, a string alternative is the last resort.  `at` is the index of the
      first alternative still to try. */
  function Process(rest: seq<Ty>, at: nat, str: string): Option<Val>
    decreases rest
  {
    if rest == [] then None
    else
      var own := Converted(rest[0], str);
      if own.Some? then Some(VVariant(at, own.value))
      else
        var later := Process(rest[1..], at + 1, str);
        if later.Some? then later
        else if rest[0].Str? then Some(VVariant(at, VPrim(Text(str))))
        else None
  }

  /** `convert_from_string<T>`, for the types that have it. */
  function Converted(t: Ty, str: string): Option<Val>
    decreases t
  {
    match t
    case Enum(m) => if HasName(m, str) then Some(VEnum(ValueOf(m, str))) else None
    case Variant(alts) => Process(alts, 0, str)
    case _ => None
  }

  /** The ordered search of the alternatives for a wire type, from index `at` on. */
  function FirstMatch(rest: seq<Ty>, at: nat, contents: string): (r: Option<nat>)
    ensures r.Some? ==> at <= r.value < at + |rest| && CString(Sig(rest[r.value - at])) == contents
    ensures forall k | 0 <= k < |rest| && (r.None? || k < r.value - at) :: CString(Sig(rest[k])) != contents
  {
    if rest == [] then None
    else if CString(Sig(rest[0])) == contents then Some(at)
    else FirstMatch(rest[1..], at + 1, contents)
  }

  predicate ConvertsFromString(t: Ty) {
    t.Enum? || t.Str?
  }

  // ---------------------------------------------------------------- read

  datatype ReadError = BusError | InvalidEnumString

  datatype Parsed<+T> = Ok(value: T, rest: seq<Token>) | Err(error: ReadError)

  function ParseText(s: seq<Token>): Parsed<string> {
    if s != [] && s[0].Item? && s[0].code == 's' && s[0].payload.Text? then Ok(s[0].payload.s, s[1..])
    else Err(BusError)
  }

  function Exit<T>(v: T, s: seq<Token>): Parsed<T> {
    if s != [] && s[0].Close? then Ok(v, s[1..]) else Err(BusError)
  }

  /** `read_single<T>::op` into `dest`, on the tokens still to be read. */
  function Parse(t: Ty, dest: Val, s: seq<Token>): Parsed<Val>
    decreases t, 0
  {
    match t
    case Prim(b) =>
      if s != [] && s[0].Item? && s[0].code == Code(b) then Ok(FromPayload(b, s[0].payload), s[1..])
      else Err(BusError)
    case Str =>
      (match ParseText(s)
       case Err(e) => Err(e)
       case Ok(str, rest) => Ok(VPrim(Text(str)), rest))
    case Enum(_) =>
      (match ParseText(s)
       case Err(e) => Err(e)
       case Ok(str, rest) =>
         match Converted(t, str)
         case None => Err(InvalidEnumString)
         case Some(v) => Ok(v, rest))
    case Array(kind, elem) =>
      if !Starts(s, ARRAY, CString(Sig(t)[1..])) then Err(BusError)
      else
        (match ParseElems(kind, elem, Elems(dest), s[1..])
         case Err(e) => Err(e)
         case Ok(xs, rest) => Exit(VArray(xs), rest))
    case Record(pair, fields) =>
      if !Starts(s, RecordKind(pair), CString(SigAll(fields))) then Err(BusError)
      else
        (match ParseAll(fields, Members(dest, fields), s[1..])
         case Err(e) => Err(e)
         case Ok(vs, rest) => Exit(VRecord(vs), rest))
    case Variant(alts) =>
      if s == [] || !s[0].Open? || s[0].kind != VARIANT then Err(BusError)
      else
        (match FirstMatch(alts, 0, s[0].contents)
         case None =>
           (match Past(s[1..], 1)
            case None => Err(BusError)
            case Some(rest) => Ok(Default(t), rest))
         case Some(j) =>
           if ConvertsFromString(alts[j]) then
             (match ParseText(s[1..])
              case Err(e) => Err(e)
              case Ok(str, rest) =>
                match Process(alts, 0, str)
                case None => Err(InvalidEnumString)
                case Some(v) => Exit(v, rest))
           else
             (match Parse(alts[j], Default(alts[j]), s[1..])
              case Err(e) => Err(e)
              case Ok(u, rest) => Exit(VVariant(j, u), rest)))
    case Monostate => Ok(VMono, s)
  }

  function Elems(dest: Val): seq<Val> {
    if dest.VArray? then dest.elems else []
  }

  function Members(dest: Val, fields: seq<Ty>): seq<Val> {
    if dest.VRecord? && |dest.members| == |fields| then dest.members else Defaults(fields)
  }

  /** The element loop, up to but not including the close.  An element always takes a
      token: see `ParseShrinks`. */
  function ParseElems(kind: Container, elem: Ty, acc: seq<Val>, s: seq<Token>): Parsed<seq<Val>>
    decreases elem, 1, |s|
  {
    if AtEnd(s) then Ok(acc, s)
    else
      match Parse(elem, Default(elem), s)
      case Err(e) => Err(e)
      case Ok(v, rest) =>
        if |rest| < |s| then ParseElems(kind, elem, Insert(kind, acc, v), rest) else Err(BusError)
  }

  /** The variadic `read`. */
  function ParseAll(ts: seq<Ty>, dests: seq<Val>, s: seq<Token>): Parsed<seq<Val>>
    decreases ts, 1
  {
    if ts == [] || dests == [] then Ok([], s)
    else
      match Parse(ts[0], dests[0], s)
      case Err(e) => Err(e)
      case Ok(v, rest) =>
        match ParseAll(ts[1..], dests[1..], rest)
        case Err(e) => Err(e)
        case Ok(vs, rest') => Ok([v] + vs, rest')
  }

  lemma {:induction false} ParseShrinks(t: Ty, dest: Val, s: seq<Token>)
    ensures var r := Parse(t, dest, s); r.Ok? ==> |r.rest| <= |s|
    ensures var r := Parse(t, dest, s); r.Ok? && !t.Monostate? ==> |r.rest| < |s|
    decreases t, 0
  {
    match t {
      case Array(kind, elem) =>
        if Starts(s, ARRAY, CString(Sig(t)[1..])) {
          ParseElemsShrinks(kind, elem, Elems(dest), s[1..]);
        }
      case Record(pair, fields) =>
        if s != [] {
          ParseAllShrinks(fields, Members(dest, fields), s[1..]);
        }
      case Variant(alts) =>
        if s != [] && s[0].Open? {
          PastSuffix(s[1..], 1);
          var m := FirstMatch(alts, 0, s[0].contents);
          if m.Some? {
            ParseShrinks(alts[m.value], Default(alts[m.value]), s[1..]);
          }
        }
      case _ =>
    }
  }

  lemma {:induction false} ParseElemsShrinks(kind: Container, elem: Ty, acc: seq<Val>, s: seq<Token>)
    ensures var r := ParseElems(kind, elem, acc, s); r.Ok? ==> |r.rest| <= |s|
    decreases elem, 1, |s|
  {
    if !AtEnd(s) {
      var r := Parse(elem, Default(elem), s);
      if r.Ok? && |r.rest| < |s| {
        ParseElemsShrinks(kind, elem, Insert(kind, acc, r.value), r.rest);
      }
    }
  }

  lemma {:induction false} ParseAllShrinks(ts: seq<Ty>, dests: seq<Val>, s: seq<Token>)
    ensures var r := ParseAll(ts, dests, s); r.Ok? ==> |r.rest| <= |s|
    decreases ts, 1
  {
    if ts != [] && dests != [] {
      ParseShrinks(ts[0], dests[0], s);
      var r := Parse(ts[0], dests[0], s);
      if r.Ok? {
        ParseAllShrinks(ts[1..], dests[1..], r.rest);
      }
    }
  }

  // ---------------------------------------------------------------- what a reader gets

  /** The value that a reader of type `t`, reading into `dest`, gets from the value `v` of
      a writer of type `w`: the meaning of a transfer, with no message in between.
      `None` is an exception. */
  function Convey(t: Ty, dest: Val, w: Ty, v: Val): Option<Val>
    decreases t, 0
  {
    match t
    case Prim(b) => Some(FromPayload(b, ToPayload(b, v)))
    case Str => Some(VPrim(Text(TextOf(w, v))))
    case Enum(_) => Converted(t, TextOf(w, v))
    case Array(kind, elem) =>
      if !(w.Array? && v.VArray?) then None
      else
        (match ConveyElems(kind, elem, Elems(dest), w.elem, v.elems)
         case None => None
         case Some(xs) => Some(VArray(xs)))
    case Record(_, fields) =>
      if !(w.Record? && v.VRecord?) then None
      else
        (match ConveyAll(fields, Members(dest, fields), w.fields, v.members)
         case None => None
         case Some(vs) => Some(VRecord(vs)))
    case Variant(alts) =>
      if !(w.Variant? && v.VVariant? && v.index < |w.alts|) then None
      else
        var held := w.alts[v.index];
        (match FirstMatch(alts, 0, Sig(held))
         case None => Some(Default(t))
         case Some(j) =>
           if ConvertsFromString(alts[j]) then Process(alts, 0, TextOf(held, v.held))
           else
             match Convey(alts[j], Default(alts[j]), held, v.held)
             case None => None
             case Some(u) => Some(VVariant(j, u)))
    case Monostate => None
  }

  function ConveyElems(kind: Container, elem: Ty, acc: seq<Val>, w: Ty, xs: seq<Val>): Option<seq<Val>>
    decreases elem, 1, xs
  {
    if xs == [] then Some(acc)
    else
      match Convey(elem, Default(elem), w, xs[0])
      case None => None
      case Some(v) => ConveyElems(kind, elem, Insert(kind, acc, v), w, xs[1..])
  }

  /** The values of type `elem` that elements of type `w` are read as, one by one, before a
      container takes them. */
  function Conveyed(elem: Ty, w: Ty, xs: seq<Val>): Option<seq<Val>> {
    if xs == [] then Some([])
    else
      match Convey(elem, Default(elem), w, xs[0])
      case None => None
      case Some(c) =>
        match Conveyed(elem, w, xs[1..])
        case None => None
        case Some(cs) => Some([c] + cs)
  }

  function ConveyAll(ts: seq<Ty>, dests: seq<Val>, ws: seq<Ty>, vs: seq<Val>): Option<seq<Val>>
    decreases ts, 1
  {
    if ts == [] || dests == [] || ws == [] || vs == [] then Some([])
    else
      match Convey(ts[0], dests[0], ws[0], vs[0])
      case None => None
      case Some(v) =>
        match ConveyAll(ts[1..], dests[1..], ws[1..], vs[1..])
        case None => None
        case Some(rest) => Some([v] + rest)
  }
}
