/** The object-path segment codec of src/message/native_types.cpp: `/=` and `/`
    escape a byte string into one path component, `filename` decodes it again and
    `parent_path` drops it.  Paths and segments are byte strings. */
module ObjectPath {
  import opened Wrappers

  type byte = x: int | 0 <= x < 256

  type Bytes = seq<byte>

  const SLASH: byte := 0x2f
  const UNDERSCORE: byte := 0x5f

  datatype PathError = InvalidArgument

  // ---------------------------------------------------------------- escape tables

  predicate IsAlnum(c: byte) {
    0x30 <= c <= 0x39 || 0x41 <= c <= 0x5a || 0x61 <= c <= 0x7a
  }

  predicate ShouldEscape(c: byte) {
    !IsAlnum(c)
  }

  predicate RequiresEscape(c: byte) {
    ShouldEscape(c) && c != UNDERSCORE
  }

  predicate AsciiAlnum(c: char) {
    '0' <= c <= '9' || 'A' <= c <= 'Z' || 'a' <= c <= 'z'
  }

  /** The letters and digits of the D-Bus grammar, and the separator. */
  lemma AlnumIs(c: byte)
    ensures IsAlnum(c) <==> AsciiAlnum(c as char)
    ensures SLASH as char == '/' && UNDERSCORE as char == '_'
  {
  }

  function Hex(nibble: int): byte
    requires 0 <= nibble < 16
  {
    if nibble < 10 then 0x30 + nibble else 0x61 + nibble - 10
  }

  /** The value of a hexadecimal digit of either case, or -1. */
  function Unhex(c: byte): int {
    if 0x30 <= c <= 0x39 then c - 0x30
    else if 0x41 <= c <= 0x46 then c - 0x41 + 10
    else if 0x61 <= c <= 0x66 then c - 0x61 + 10
    else -1
  }

  function Escape(c: byte): Bytes {
    [UNDERSCORE, Hex(c / 16), Hex(c % 16)]
  }

  lemma EscapeRoundTrip(c: byte)
    ensures forall b | b in Escape(c) :: IsAlnum(b) || b == UNDERSCORE
    ensures Unhex(Escape(c)[1]) != -1 && Unhex(Escape(c)[2]) != -1
    ensures Unhex(Escape(c)[1]) * 16 + Unhex(Escape(c)[2]) == c
  {
    assert forall n | 0 <= n < 16 :: Unhex(Hex(n)) == n && IsAlnum(Hex(n));
  }

  /** Encoded bytes have lower-case digits, and both cases are decoded. */
  lemma HexDigits(n: int)
    requires 0 <= n < 16
    ensures Hex(n) as char == "0123456789abcdef"[n]
    ensures forall c: byte ::
              Unhex(c) == n <==> c as char == "0123456789abcdef"[n] || c as char == "0123456789ABCDEF"[n]
  {
  }

  // ---------------------------------------------------------------- encoder and decoder

  /** A segment is copied as it is when it starts with a letter or digit and the
      rest holds only letters, digits and underscores. */
  predicate Plain(segment: Bytes)
    requires segment != []
  {
    !ShouldEscape(segment[0]) && forall c | c in segment[1..] :: !RequiresEscape(c)
  }

  function EscapeAll(s: Bytes): Bytes {
    if s == [] then []
    else (if ShouldEscape(s[0]) then Escape(s[0]) else [s[0]]) + EscapeAll(s[1..])
  }

  /** Otherwise the first byte is always escaped, so that a leading underscore tells
      an encoded component from a plain one. */
  function EncodeSegment(segment: Bytes): Bytes
    requires segment != []
  {
    if Plain(segment) then segment else Escape(segment[0]) + EscapeAll(segment[1..])
  }

  function Prepend(front: Bytes, tail: Option<Bytes>): Option<Bytes> {
    match tail
    case Some(t) => Some(front + t)
    case None => None
  }

  function Unescape(s: Bytes): Option<Bytes> {
    if s == [] then Some([])
    else if s[0] != UNDERSCORE then Prepend([s[0]], Unescape(s[1..]))
    else if |s| < 3 || Unhex(s[1]) == -1 || Unhex(s[2]) == -1 then None
    else Prepend([Unhex(s[1]) * 16 + Unhex(s[2])], Unescape(s[3..]))
  }

  /** A component that does not start with an underscore was not encoded here and is
      returned as it is; a malformed encoding decodes to the empty string. */
  function DecodeSegment(component: Bytes): Bytes {
    if component == [] || component[0] != UNDERSCORE then component
    else
      match Unescape(component)
      case Some(segment) => segment
      case None => []
  }

  lemma PrependNothing(tail: Option<Bytes>)
    ensures Prepend([], tail) == tail
  {
    if tail.Some? {
      assert [] + tail.value == tail.value;
    }
  }

  lemma PrependTwice(a: Bytes, b: Bytes, tail: Option<Bytes>)
    ensures Prepend(a, Prepend(b, tail)) == Prepend(a + b, tail)
  {
    if tail.Some? {
      assert a + (b + tail.value) == a + b + tail.value;
    }
  }

  /** One round of the decoding loop, with `out` decoded so far. */
  lemma UnescapeAt(s: Bytes, i: nat, out: Bytes)
    requires i < |s|
    ensures s[i] != UNDERSCORE ==>
              Prepend(out, Unescape(s[i..])) == Prepend(out + [s[i]], Unescape(s[i + 1..]))
    ensures s[i] == UNDERSCORE && (i + 2 >= |s| || Unhex(s[i + 1]) == -1 || Unhex(s[i + 2]) == -1) ==>
              Prepend(out, Unescape(s[i..])) == None
    ensures s[i] == UNDERSCORE && i + 2 < |s| && Unhex(s[i + 1]) != -1 && Unhex(s[i + 2]) != -1 ==>
              Prepend(out, Unescape(s[i..]))
              == Prepend(out + [Unhex(s[i + 1]) * 16 + Unhex(s[i + 2])], Unescape(s[i + 3..]))
  {
    var rest := s[i..];
    if s[i] != UNDERSCORE {
      assert rest[1..] == s[i + 1..];
      PrependTwice(out, [s[i]], Unescape(s[i + 1..]));
    } else if i + 2 < |s| && Unhex(s[i + 1]) != -1 && Unhex(s[i + 2]) != -1 {
      assert rest[3..] == s[i + 3..];
      PrependTwice(out, [Unhex(s[i + 1]) * 16 + Unhex(s[i + 2])], Unescape(s[i + 3..]));
    }
  }

  lemma {:induction false} EscapeAllSnoc(s: Bytes, c: byte)
    ensures EscapeAll(s + [c]) == EscapeAll(s) + if ShouldEscape(c) then Escape(c) else [c]
  {
    if s != [] {
      EscapeAllSnoc(s[1..], c);
      assert (s + [c])[1..] == s[1..] + [c];
    }
  }

  lemma {:induction false} UnescapeEscapeAll(s: Bytes)
    ensures Unescape(EscapeAll(s)) == Some(s)
  {
    if s != [] {
      UnescapeEscapeAll(s[1..]);
      UnescapeFirst(s[0], EscapeAll(s[1..]));
      assert [s[0]] + s[1..] == s;
      assert !ShouldEscape(s[0]) ==> EscapeAll(s)[1..] == EscapeAll(s[1..]);
    }
  }

  lemma UnescapeFirst(c: byte, tail: Bytes)
    requires Unescape(tail).Some?
    ensures Unescape(Escape(c) + tail) == Some([c] + Unescape(tail).value)
  {
    EscapeRoundTrip(c);
    assert (Escape(c) + tail)[3..] == tail;
  }

  lemma SegmentRoundTrip(segment: Bytes)
    requires segment != []
    ensures DecodeSegment(EncodeSegment(segment)) == segment
  {
    if !Plain(segment) {
      UnescapeEscapeAll(segment[1..]);
      UnescapeFirst(segment[0], EscapeAll(segment[1..]));
      assert [segment[0]] + segment[1..] == segment;
    }
  }

  predicate ComponentByte(c: byte) {
    IsAlnum(c) || c == UNDERSCORE
  }

  predicate Component(s: Bytes) {
    s != [] && forall c | c in s :: ComponentByte(c)
  }

  lemma {:induction false} EscapeAllShape(s: Bytes)
    ensures forall c | c in EscapeAll(s) :: ComponentByte(c)
    ensures |s| <= |EscapeAll(s)| <= 3 * |s|
  {
    if s != [] {
      EscapeAllShape(s[1..]);
      EscapeRoundTrip(s[0]);
    }
  }

  lemma EncodeSegmentShape(segment: Bytes)
    requires segment != []
    ensures Component(EncodeSegment(segment))
    ensures |EncodeSegment(segment)| <= 3 * |segment|
  {
    if Plain(segment) {
      assert forall c | c in segment :: c == segment[0] || c in segment[1..];
    } else {
      EscapeAllShape(segment[1..]);
      EscapeRoundTrip(segment[0]);
    }
  }

  // ---------------------------------------------------------------- paths

  /** The index of the last slash, or -1. */
  function LastSlash(path: Bytes): (r: int)
    ensures -1 <= r < |path|
    ensures r >= 0 ==> path[r] == SLASH
    ensures forall i | r < i < |path| :: path[i] != SLASH
  {
    if path == [] then -1
    else if path[|path| - 1] == SLASH then |path| - 1
    else LastSlash(path[..|path| - 1])
  }

  lemma LastSlashOfJoin(prefix: Bytes, component: Bytes)
    requires SLASH !in component
    requires prefix == [] || prefix[|prefix| - 1] == SLASH
    ensures LastSlash(prefix + component) == |prefix| - 1
  {
    var path := prefix + component;
    var r := LastSlash(path);
    assert forall i | |prefix| <= i < |path| :: path[i] == component[i - |prefix|] && path[i] != SLASH;
    if prefix != [] {
      assert path[|prefix| - 1] == SLASH;
    }
  }

  function Filename(path: Bytes): Bytes {
    var i := LastSlash(path);
    if i == -1 then [] else DecodeSegment(path[i + 1..])
  }

  function ParentPath(path: Bytes): Bytes {
    var i := LastSlash(path);
    if i <= 1 then [SLASH] else path[..i]
  }

  /** The base with the separator that `/=` adds when there is none. */
  function WithSeparator(base: Bytes): Bytes {
    if base != [] && base[|base| - 1] != SLASH then base + [SLASH] else base
  }

  function Append(base: Bytes, segment: Bytes): Result<Bytes, PathError> {
    if segment == [] then Failure(InvalidArgument)
    else Success(WithSeparator(base) + EncodeSegment(segment))
  }

  /** Decoding undoes `/=` on every base but the empty one, which gets no separator. */
  lemma FilenameOfAppend(base: Bytes, segment: Bytes)
    requires segment != []
    ensures Filename(Append(base, segment).value) == segment <==> base != []
  {
    EncodeSegmentShape(segment);
    LastSlashOfJoin(WithSeparator(base), EncodeSegment(segment));
    SegmentRoundTrip(segment);
    var path := Append(base, segment).value;
    assert path[|WithSeparator(base)|..] == EncodeSegment(segment);
  }

  /** `parent_path` undoes `/=` exactly on the root and on bases of two bytes or more
      that do not end with a slash. */
  lemma ParentOfAppend(base: Bytes, segment: Bytes)
    requires segment != []
    ensures ParentPath(Append(base, segment).value) == base
            <==> base == [SLASH] || (|base| >= 2 && base[|base| - 1] != SLASH)
  {
    EncodeSegmentShape(segment);
    LastSlashOfJoin(WithSeparator(base), EncodeSegment(segment));
    var path := Append(base, segment).value;
    if |base| >= 2 {
      assert path[..|base|] == base;
      assert |path[..|base| - 1]| != |base|;
    }
  }

  /** A segment is appended as it is exactly when it is a valid component that does not start
      with an underscore; nothing else is left unescaped, and nothing is escaped needlessly. */
  lemma AppendedPlain(base: Bytes, segment: Bytes)
    ensures Append(base, segment) == Success(WithSeparator(base) + segment)
            <==> Component(segment) && segment[0] != UNDERSCORE
  {
    if segment != [] {
      PlainIs(segment);
      EncodedLength(segment);
      SameTail(WithSeparator(base), EncodeSegment(segment), segment);
    }
  }

  lemma PlainIs(segment: Bytes)
    requires segment != []
    ensures Plain(segment) <==> Component(segment) && segment[0] != UNDERSCORE
  {
    assert segment == [segment[0]] + segment[1..];
    if Plain(segment) {
      assert forall c | c in segment :: c == segment[0] || c in segment[1..];
      assert ComponentByte(segment[0]);
    }
    assert segment[0] in segment && forall c | c in segment[1..] :: c in segment;
  }

  lemma SameTail(front: Bytes, s: Bytes, t: Bytes)
    ensures front + s == front + t <==> s == t
  {
    assert (front + s)[|front|..] == s && (front + t)[|front|..] == t;
  }

  lemma EncodedLength(segment: Bytes)
    requires segment != []
    ensures |EncodeSegment(segment)| == |segment| <==> Plain(segment)
  {
    if !Plain(segment) {
      EscapeAllShape(segment[1..]);
      assert |EncodeSegment(segment)| == 3 + |EscapeAll(segment[1..])|;
    }
  }

  /** How one byte after the first is written in an escaped segment: letters and digits as they
      are, everything else as an underscore and two digits. */
  lemma EscapedByte(c: byte)
    ensures EscapeAll([c]) == if AsciiAlnum(c as char) then [c] else [UNDERSCORE, Hex(c / 16), Hex(c % 16)]
  {
    AlnumIs(c);
    assert EscapeAll([]) == [];
    assert [c][1..] == [];
  }

  /** An escaped segment is its bytes written one after the other, the first one always with
      digits. */
  lemma {:induction false} EscapedConcat(s: Bytes, t: Bytes)
    ensures EscapeAll(s + t) == EscapeAll(s) + EscapeAll(t)
    decreases s
  {
    if s == [] {
      assert s + t == t;
    } else {
      assert (s + t)[1..] == s[1..] + t;
      EscapedConcat(s[1..], t);
    }
  }

  lemma EscapedSegment(segment: Bytes)
    requires segment != [] && !(Component(segment) && segment[0] != UNDERSCORE)
    ensures EncodeSegment(segment)
            == [UNDERSCORE, Hex(segment[0] / 16), Hex(segment[0] % 16)] + EscapeAll(segment[1..])
  {
    PlainIs(segment);
  }

  // ---------------------------------------------------------------- valid object paths

  /** The grammar of section "Valid Object Paths" of the D-Bus Specification. */
  predicate ValidPath(path: Bytes) {
    && path != []
    && path[0] == SLASH
    && (forall i | 0 <= i < |path| :: path[i] == SLASH || ComponentByte(path[i]))
    && (forall i | 0 <= i < |path| - 1 :: path[i] == SLASH ==> path[i + 1] != SLASH)
    && (|path| > 1 ==> path[|path| - 1] != SLASH)
  }

  /** A valid path, or one with a slash at its end. */
  predicate ValidBase(base: Bytes) {
    || ValidPath(base)
    || (|base| > 2 && base[|base| - 1] == SLASH && ValidPath(base[..|base| - 1]))
  }

  lemma AppendValid(base: Bytes, segment: Bytes)
    requires segment != []
    ensures ValidPath(Append(base, segment).value) <==> ValidBase(base)
    ensures |Append(base, segment).value| <= |base| + 1 + 3 * |segment|
  {
    EncodeSegmentShape(segment);
    var front := WithSeparator(base);
    var component := EncodeSegment(segment);
    var path := Append(base, segment).value;
    assert path[..|front|] == front && path[|front|..] == component;
    if ValidPath(path) {
      ValidFront(base, path);
    }
    if ValidBase(base) {
      ValidBack(base, component, path);
    }
  }

  lemma AppendUndone(base: Bytes, segment: Bytes)
    requires ValidPath(base) && segment != []
    ensures Filename(Append(base, segment).value) == segment
    ensures ParentPath(Append(base, segment).value) == base
  {
    FilenameOfAppend(base, segment);
    ParentOfAppend(base, segment);
    assert |base| == 1 ==> base == [SLASH];
  }

  lemma ValidBack(base: Bytes, component: Bytes, path: Bytes)
    requires ValidBase(base) && Component(component)
    requires path == WithSeparator(base) + component
    ensures ValidPath(path)
  {
    var front := WithSeparator(base);
    assert forall i | 0 <= i < |front| :: path[i] == front[i];
    assert forall i | |front| <= i < |path| :: path[i] == component[i - |front|] && ComponentByte(path[i]);
    if base[|base| - 1] == SLASH && |base| > 1 {
      var cut := base[..|base| - 1];
      assert forall i | 0 <= i < |cut| :: path[i] == cut[i];
    } else {
      assert forall i | 0 <= i < |base| :: path[i] == base[i];
    }
  }

  lemma ValidFront(base: Bytes, path: Bytes)
    requires ValidPath(path) && |WithSeparator(base)| < |path|
    requires path[..|WithSeparator(base)|] == WithSeparator(base)
    requires path[|WithSeparator(base)|] != SLASH
    requires SLASH !in path[|WithSeparator(base)|..]
    ensures ValidBase(base)
  {
    var front := WithSeparator(base);
    assert forall i | 0 <= i < |front| :: path[i] == front[i];
    assert base != [];
    if base[|base| - 1] == SLASH && |base| > 1 {
      var cut := base[..|base| - 1];
      assert forall i | 0 <= i < |cut| :: path[i] == cut[i];
      assert path[|cut|] == SLASH;
      assert path[|cut| - 1] != SLASH;
      assert |base| > 2;
    } else {
      assert forall i | 0 <= i < |base| :: path[i] == base[i];
    }
  }

  // ---------------------------------------------------------------- lists of segments

  predicate NoneEmpty(segments: seq<Bytes>) {
    forall i | 0 <= i < |segments| :: |segments[i]| > 0
  }

  /** The multi-segment constructor: `/=` folded over the segments. */
  function AppendAll(base: Bytes, segments: seq<Bytes>): Result<Bytes, PathError>
    decreases |segments|
  {
    if segments == [] then Success(base)
    else
      var n := |segments| - 1;
      match AppendAll(base, segments[..n])
      case Failure(e) => Failure(e)
      case Success(front) => Append(front, segments[n])
  }

  /** The last `n` segments of a path, last one first, and what is left of the path:
      `filename` and `parent_path` taken `n` times. */
  function Unwind(path: Bytes, n: nat): (seq<Bytes>, Bytes)
    decreases n
  {
    if n == 0 then ([], path)
    else
      var (rest, base) := Unwind(ParentPath(path), n - 1);
      ([Filename(path)] + rest, base)
  }

  function Reverse<T>(s: seq<T>): seq<T> {
    if s == [] then [] else [s[|s| - 1]] + Reverse(s[..|s| - 1])
  }

  lemma {:induction false} AppendAllValid(base: Bytes, segments: seq<Bytes>)
    requires ValidPath(base)
    ensures AppendAll(base, segments).Success? <==> NoneEmpty(segments)
    ensures AppendAll(base, segments).Success? ==>
              && ValidPath(AppendAll(base, segments).value)
              && |AppendAll(base, segments).value| >= |base|
              && (segments != [] ==> |AppendAll(base, segments).value| > |base|)
    decreases |segments|
  {
    if segments != [] {
      var n := |segments| - 1;
      AppendAllValid(base, segments[..n]);
      assert segments == segments[..n] + [segments[n]];
      if NoneEmpty(segments) {
        AppendValid(AppendAll(base, segments[..n]).value, segments[n]);
        EncodeSegmentShape(segments[n]);
      }
    }
  }

  lemma {:induction false} AppendAllFails(base: Bytes, segments: seq<Bytes>, n: nat)
    requires n <= |segments| && AppendAll(base, segments[..n]).Failure?
    ensures AppendAll(base, segments).Failure?
    decreases |segments|
  {
    var k := |segments| - 1;
    if n <= k {
      assert segments[..k][..n] == segments[..n];
      AppendAllFails(base, segments[..k], n);
    } else {
      assert segments[..n] == segments;
    }
  }

  /** Taking a path apart gives back the segments it was built from, and the base. */
  lemma {:induction false} UnwindAppendAll(base: Bytes, segments: seq<Bytes>)
    requires ValidPath(base) && NoneEmpty(segments)
    ensures AppendAll(base, segments).Success?
    ensures Unwind(AppendAll(base, segments).value, |segments|) == (Reverse(segments), base)
    decreases |segments|
  {
    if segments != [] {
      var front, last := AppendInverse(base, segments);
      UnwindAppendAll(base, front);
      assert segments[..|segments| - 1] == front;
    }
  }

  lemma AppendInverse(base: Bytes, xs: seq<Bytes>) returns (front: seq<Bytes>, last: Bytes)
    requires ValidPath(base) && NoneEmpty(xs) && xs != []
    ensures xs == front + [last] && |front| < |xs| && NoneEmpty(front)
    ensures AppendAll(base, xs).Success?
    ensures Filename(AppendAll(base, xs).value) == last
    ensures AppendAll(base, front) == Success(ParentPath(AppendAll(base, xs).value))
  {
    var n := |xs| - 1;
    front, last := xs[..n], xs[n];
    AppendAllValid(base, front);
    assert xs == front + [last] && NoneEmpty(front);
    AppendUndone(AppendAll(base, front).value, last);
  }

  /** Different lists of segments, of any lengths, give different paths. */
  lemma {:induction false} AppendAllInjective(base: Bytes, xs: seq<Bytes>, ys: seq<Bytes>)
    requires ValidPath(base) && NoneEmpty(xs) && NoneEmpty(ys)
    requires AppendAll(base, xs) == AppendAll(base, ys)
    ensures xs == ys
    decreases |xs|
  {
    if xs == [] {
      AppendAllValid(base, ys);
    } else if ys == [] {
      AppendAllValid(base, xs);
    } else {
      var front, last := AppendInverse(base, xs);
      var front', last' := AppendInverse(base, ys);
      AppendAllInjective(base, front, front');
    }
  }

  // ---------------------------------------------------------------- the wrapper class

  class StringPathWrapper {
    var str: Bytes

    constructor (strIn: Bytes)
      ensures str == strIn
    {
      str := strIn;
    }

    /** The constructor from a base and further segments; an empty segment throws. */
    static method FromSegments(base: Bytes, segments: seq<Bytes>)
      returns (r: Result<StringPathWrapper, PathError>)
      ensures r.Failure? <==> AppendAll(base, segments).Failure?
      ensures r.Success? ==> fresh(r.value) && AppendAll(base, segments) == Success(r.value.str)
    {
      var res := new StringPathWrapper(base);
      for i := 0 to |segments|
        invariant fresh(res)
        invariant AppendAll(base, segments[..i]) == Success(res.str)
      {
        assert segments[..i + 1][..i] == segments[..i];
        var step := res.DivideAssign(segments[i]);
        if step.Failure? {
          AppendAllFails(base, segments, i + 1);
          return Failure(step.error);
        }
      }
      assert segments[..|segments|] == segments;
      return Success(res);
    }

    method AppendEscape(c: byte)
      modifies this
      ensures str == old(str) + Escape(c)
    {
      str := str + [UNDERSCORE];
      str := str + [Hex(c / 16)];
      str := str + [Hex(c % 16)];
    }

    /** `operator/=`: an empty segment throws and leaves the path alone. */
    method DivideAssign(extId: Bytes) returns (r: Result<(), PathError>)
      modifies this
      ensures r.Failure? <==> Append(old(str), extId).Failure?
      ensures r.Failure? ==> str == old(str)
      ensures r.Success? ==> Append(old(str), extId) == Success(str)
    {
      if extId == [] {
        return Failure(InvalidArgument);
      }
      if str != [] && str[|str| - 1] != SLASH {
        str := str + [SLASH];
      }
      if Plain(extId) {
        str := str + extId;
        return Success(());
      }
      AppendEscape(extId[0]);
      ghost var front := str;
      var tail := extId[1..];
      for i := 0 to |tail|
        invariant str == front + EscapeAll(tail[..i])
      {
        EscapeAllSnoc(tail[..i], tail[i]);
        assert tail[..i + 1] == tail[..i] + [tail[i]];
        if ShouldEscape(tail[i]) {
          AppendEscape(tail[i]);
        } else {
          str := str + [tail[i]];
        }
      }
      assert tail[..|tail|] == tail;
      assert str == WithSeparator(old(str)) + (Escape(extId[0]) + EscapeAll(tail));
      return Success(());
    }

    /** `operator/`: the same on a copy. */
    method Divide(extId: Bytes) returns (r: Result<StringPathWrapper, PathError>)
      ensures r.Failure? <==> extId == []
      ensures r.Success? ==> fresh(r.value) && Append(str, extId) == Success(r.value.str)
    {
      var out := new StringPathWrapper(str);
      var done := out.DivideAssign(extId);
      match done
      case Failure(e) => return Failure(e);
      case Success(_) => return Success(out);
    }

    method GetFilename() returns (out: Bytes)
      ensures out == Filename(str)
    {
      var firstIndex := LastSlash(str);
      if firstIndex == -1 {
        return [];
      }
      var filename := str[firstIndex + 1..];
      if filename == [] || filename[0] != UNDERSCORE {
        return filename;
      }
      out := UnescapeComponent(filename);
    }

    /** The decoding loop of `filename`, which gives up on a malformed encoding. */
    static method UnescapeComponent(filename: Bytes) returns (out: Bytes)
      ensures Unescape(filename) == Some(out) || (Unescape(filename) == None && out == [])
    {
      out := [];
      var i := 0;
      assert filename[0..] == filename;
      PrependNothing(Unescape(filename));
      while i < |filename|
        invariant 0 <= i <= |filename|
        invariant Prepend(out, Unescape(filename[i..])) == Unescape(filename)
      {
        UnescapeAt(filename, i, out);
        if filename[i] != UNDERSCORE {
          out := out + [filename[i]];
          i := i + 1;
          continue;
        }
        if i + 2 >= |filename| {
          return [];
        }
        var ch, cl := Unhex(filename[i + 1]), Unhex(filename[i + 2]);
        if ch == -1 || cl == -1 {
          return [];
        }
        out := out + [ch * 16 + cl];
        i := i + 3;
      }
      assert filename[i..] == [] && out + [] == out;
    }

    method GetParentPath() returns (parent: StringPathWrapper)
      ensures fresh(parent) && parent.str == ParentPath(str)
    {
      var index := LastSlash(str);
      if index == -1 || index <= 1 {
        parent := new StringPathWrapper([SLASH]);
      } else {
        parent := new StringPathWrapper(str[..index]);
      }
    }
  }
}
