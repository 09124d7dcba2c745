/** The read templates of include/sdbusplus/message/read.hpp, walking a message. */
module Read {
  import opened Wrappers
  import opened DbusTypes
  import opened DbusValues
  import opened Wire
  import opened Codec
  import opened Append

  function ValuesOf(b: Basic, data: seq<Payload>): (xs: seq<Val>)
    ensures |xs| == |data|
  {
    seq(|data|, i requires 0 <= i < |data| => FromPayload(b, data[i]))
  }

  /** The values of a run of items. */
  function RunValues(b: Basic, s: seq<Token>): seq<Val> {
    if s != [] && s[0].Item? && s[0].code == Code(b) then [FromPayload(b, s[0].payload)] + RunValues(b, s[1..])
    else []
  }

  lemma {:induction false} RunValuesIs(b: Basic, s: seq<Token>)
    ensures ValuesOf(b, Payloads(s[..Run(s, Code(b))])) == RunValues(b, s)
  {
    var n := Run(s, Code(b));
    if n > 0 {
      RunValuesIs(b, s[1..]);
      assert s[1..][..n - 1] == s[1..n] == s[..n][1..];
      var xs := ValuesOf(b, Payloads(s[..n]));
      assert xs[1..] == ValuesOf(b, Payloads(s[..n][1..]));
      assert xs == [xs[0]] + xs[1..];
    }
  }

  /** The bulk call reads what the element loop would read. */
  lemma {:induction false} RunIsLoop(b: Basic, acc: seq<Val>, s: seq<Token>)
    ensures var n := Run(s, Code(b));
            ParseElems(Vector, Prim(b), acc, s)
            == if n == |s| || s[n].Close? then Ok(acc + RunValues(b, s), s[n..]) else Err(BusError)
    decreases s
  {
    var n := Run(s, Code(b));
    if n == 0 {
      assert acc + [] == acc && s[0..] == s;
    } else {
      var v := FromPayload(b, s[0].payload);
      RunIsLoop(b, acc + [v], s[1..]);
      assert s[1..][n - 1..] == s[n..];
      assert acc + [v] + RunValues(b, s[1..]) == acc + RunValues(b, s);
    }
  }

  lemma BulkSig(b: Basic)
    ensures CString(Sig(Array(Vector, Prim(b)))[1..]) == [Code(b)]
  {
    assert Sig(Array(Vector, Prim(b)))[1..] == Sig(Prim(b));
    CStringWhole(Sig(Prim(b)));
  }

  function ExitArray(p: Parsed<seq<Val>>): Parsed<Val> {
    match p
    case Err(e) => Err(e)
    case Ok(xs, rest) => Exit(VArray(xs), rest)
  }

  lemma BulkBody(b: Basic, acc: seq<Val>, body: seq<Token>)
    ensures var n := Run(body, Code(b));
            ExitArray(ParseElems(Vector, Prim(b), acc, body))
            == if n < |body| && body[n].Close? then Ok(VArray(acc + RunValues(b, body)), body[n + 1..])
               else Err(BusError)
  {
    var n := Run(body, Code(b));
    RunIsLoop(b, acc, body);
    if n < |body| {
      assert body[n..][0] == body[n] && body[n..][1..] == body[n + 1..];
    }
  }

  lemma BulkIsParse(b: Basic, dest: Val, s: seq<Token>)
    ensures Parse(Array(Vector, Prim(b)), dest, s)
            == if Starts(s, ARRAY, [Code(b)]) && Run(s[1..], Code(b)) + 1 < |s|
                  && s[1..][Run(s[1..], Code(b))].Close?
               then Ok(VArray(Elems(dest) + RunValues(b, s[1..])), s[1..][Run(s[1..], Code(b)) + 1..])
               else Err(BusError)
  {
    BulkSig(b);
    if s != [] {
      BulkBody(b, Elems(dest), s[1..]);
    }
  }

  /** What a read has to leave behind: the parsed value, with the cursor just past it and
      the containers as they were, or the exception. */
  ghost predicate Agrees<T(!new)>(r: Result<T, ReadError>, spec: Parsed<T>, rest: seq<Token>)
  {
    match spec
    case Ok(v, after) => r == Success(v) && rest == after
    case Err(e) => r == Failure(e)
  }

  method ReadText(m: SdBusMessage) returns (r: Result<string, ReadError>)
    requires m.Valid()
    modifies m`cursor
    ensures m.Valid() && Agrees(r, ParseText(old(m.Rest())), m.Rest())
  {
    var p := m.ReadBasic('s');
    match p
    case Some(Text(s)) => r := Success(s);
    case _ => r := Failure(BusError);
  }

  /** `read_single<T>::op` into `dest`. */
  method ReadSingle(m: SdBusMessage, t: Ty, dest: Val) returns (r: Result<Val, ReadError>)
    requires m.Valid() && (t.Monostate? || Wf(t))
    modifies m`cursor, m`containers
    ensures m.Valid() && Agrees(r, Parse(t, dest, old(m.Rest())), m.Rest())
    ensures r.Success? ==> m.containers == old(m.containers)
    decreases t, 0
  {
    match t
    case Prim(b) =>
      var p := m.ReadBasic(Code(b));
      match p {
        case None => r := Failure(BusError);
        case Some(payload) => r := Success(FromPayload(b, payload));
      }
    case Str =>
      var s := ReadText(m);
      match s {
        case Failure(e) => r := Failure(e);
        case Success(str) => r := Success(VPrim(Text(str)));
      }
    case Enum(_) =>
      var s := ReadText(m);
      match s {
        case Failure(e) => r := Failure(e);
        case Success(str) =>
          var c := Converted(t, str);
          match c {
            case None => r := Failure(InvalidEnumString);
            case Some(v) => r := Success(v);
          }
      }
    case Array(kind, elem) =>
      if Contiguous(kind, elem) {
        r := ReadBulk(m, elem.basic, dest);
      } else {
        r := ReadElements(m, kind, elem, dest);
      }
    case Record(pair, fields) =>
      r := ReadRecord(m, pair, fields, dest);
    case Variant(alts) =>
      r := ReadVariant(m, alts, 0, dest);
    case Monostate =>
      r := Success(VMono);
  }

  method ReadBulk(m: SdBusMessage, b: Basic, dest: Val) returns (r: Result<Val, ReadError>)
    requires m.Valid() && Width(b) > 0
    modifies m`cursor
    ensures m.Valid() && Agrees(r, Parse(Array(Vector, Prim(b)), dest, old(m.Rest())), m.Rest())
  {
    ghost var s := m.Rest();
    BulkIsParse(b, dest, s);
    var p := m.ReadArray(Code(b), Width(b));
    match p
    case None => r := Failure(BusError);
    case Some((data, sizeInBytes)) =>
      BytesToElements(b, |data|);
      var n := sizeInBytes / Width(b);
      assert data[..n] == data;
      RunValuesIs(b, s[1..]);
      r := Success(VArray(Elems(dest) + ValuesOf(b, data[..n])));
  }

  method ReadElements(m: SdBusMessage, kind: Container, elem: Ty, dest: Val) returns (r: Result<Val, ReadError>)
    requires m.Valid() && Wf(elem)
    modifies m`cursor, m`containers
    ensures m.Valid() && Agrees(r, Parse(Array(kind, elem), dest, old(m.Rest())), m.Rest())
    ensures r.Success? ==> m.containers == old(m.containers)
    decreases elem, 1
  {
    var ok := m.EnterContainer(ARRAY, Sig(Array(kind, elem))[1..]);
    if !ok {
      return Failure(BusError);
    }
    var xs := Elems(dest);
    ghost var body := m.Rest();
    var end := m.AtEndOfContainer();
    while !end
      invariant m.Valid() && m.containers == old(m.containers) + [ARRAY]
      invariant end <==> AtEnd(m.Rest())
      invariant ParseElems(kind, elem, xs, m.Rest()) == ParseElems(kind, elem, Elems(dest), body)
      decreases |m.tokens| - m.cursor, !end
    {
      ParseShrinks(elem, Default(elem), m.Rest());
      var x := ReadSingle(m, elem, Default(elem));
      if x.Failure? {
        return x;
      }
      xs := Insert(kind, xs, x.value);
      end := m.AtEndOfContainer();
    }
    ok := m.ExitContainer();
    if !ok {
      return Failure(BusError);
    }
    return Success(VArray(xs));
  }

  method ReadRecord(m: SdBusMessage, pair: bool, fields: seq<Ty>, dest: Val) returns (r: Result<Val, ReadError>)
    requires m.Valid() && forall f | f in fields :: Wf(f)
    modifies m`cursor, m`containers
    ensures m.Valid() && Agrees(r, Parse(Record(pair, fields), dest, old(m.Rest())), m.Rest())
    ensures r.Success? ==> m.containers == old(m.containers)
    decreases fields, 2
  {
    var ok := m.EnterContainer(RecordKind(pair), SigAll(fields));
    if !ok {
      return Failure(BusError);
    }
    var args := ReadArgs(m, fields, Members(dest, fields));
    if args.Failure? {
      return Failure(args.error);
    }
    ok := m.ExitContainer();
    if !ok {
      return Failure(BusError);
    }
    return Success(VRecord(args.value));
  }

  /** The variadic `read`, into `dests`. */
  method ReadArgs(m: SdBusMessage, ts: seq<Ty>, dests: seq<Val>) returns (r: Result<seq<Val>, ReadError>)
    requires m.Valid() && forall t | t in ts :: Wf(t)
    modifies m`cursor, m`containers
    ensures m.Valid() && Agrees(r, ParseAll(ts, dests, old(m.Rest())), m.Rest())
    ensures r.Success? ==> m.containers == old(m.containers)
    decreases ts, 1
  {
    if ts == [] || dests == [] {
      return Success([]);
    }
    var first := ReadSingle(m, ts[0], dests[0]);
    if first.Failure? {
      return Failure(first.error);
    }
    var others := ReadArgs(m, ts[1..], dests[1..]);
    if others.Failure? {
      return others;
    }
    return Success([first.value] + others.value);
  }

  /** `read_single<std::variant<Args...>>::read` for the alternatives from `at` on. */
  method ReadVariant(m: SdBusMessage, alts: seq<Ty>, at: nat, ghost dest: Val) returns (r: Result<Val, ReadError>)
    requires m.Valid() && Wf(Variant(alts)) && at < |alts|
    requires forall k | 0 <= k < at :: !Starts(m.Rest(), VARIANT, CString(Sig(alts[k])))
    modifies m`cursor, m`containers
    ensures m.Valid() && Agrees(r, Parse(Variant(alts), dest, old(m.Rest())), m.Rest())
    ensures r.Success? ==> m.containers == old(m.containers)
    decreases alts, |alts| - at
  {
    var same := m.VerifyType(VARIANT, Sig(alts[at]));
    if !same {
      if at + 1 == |alts| {
        var skipped := m.SkipVariant();
        if !skipped {
          return Failure(BusError);
        }
        return Success(Default(Variant(alts)));
      }
      r := ReadVariant(m, alts, at + 1, dest);
      return;
    }
    ghost var s := m.Rest();
    assert FirstMatch(alts, 0, s[0].contents) == Some(at);
    r := ReadAlternative(m, alts, at);
  }

  method ReadAlternative(m: SdBusMessage, alts: seq<Ty>, at: nat) returns (r: Result<Val, ReadError>)
    requires m.Valid() && Wf(Variant(alts)) && at < |alts|
    requires Starts(m.Rest(), VARIANT, CString(Sig(alts[at])))
    requires FirstMatch(alts, 0, m.Rest()[0].contents) == Some(at)
    modifies m`cursor, m`containers
    ensures m.Valid() && Agrees(r, Parse(Variant(alts), VMono, old(m.Rest())), m.Rest())
    ensures r.Success? ==> m.containers == old(m.containers)
    decreases alts, 0
  {
    var ok := m.EnterContainer(VARIANT, Sig(alts[at]));
    var v: Val;
    if ConvertsFromString(alts[at]) {
      var str := ReadText(m);
      if str.Failure? {
        return Failure(str.error);
      }
      var ret := Process(alts, 0, str.value);
      if ret.None? {
        return Failure(InvalidEnumString);
      }
      v := ret.value;
    } else {
      assert alts[at] in alts;
      var t1 := ReadSingle(m, alts[at], Default(alts[at]));
      if t1.Failure? {
        return t1;
      }
      v := VVariant(at, t1.value);
    }
    ok := m.ExitContainer();
    if !ok {
      return Failure(BusError);
    }
    return Success(v);
  }
}
