/** The sd-bus message as a sequence of tokens with a read cursor and a stack of open
    containers, and the contracts assumed of the sd-bus calls. */
module Wire {
  import opened Wrappers
  import opened DbusTypes
  import opened DbusValues

  const ARRAY := 'a'
  const STRUCT := 'r'
  const DICT_ENTRY := 'e'
  const VARIANT := 'v'

  datatype Token =
    | Item(code: char, payload: Payload)
    | Open(kind: char, contents: string)
    | Close

  /** What a callee sees of a character array: the characters before the first NUL. */
  function CString(s: string): string {
    if s == "" || s[0] == NUL then "" else [s[0]] + CString(s[1..])
  }

  lemma {:induction false} CStringWhole(s: string)
    ensures CString(s) == s <==> NUL !in s
    ensures NUL !in CString(s)
    ensures CString(s) <= s && (CString(s) < s ==> s[|CString(s)|] == NUL)
  {
    if s != "" && s[0] != NUL {
      CStringWhole(s[1..]);
      assert s == [s[0]] + s[1..];
    }
  }

  lemma CStringTwice(s: string)
    ensures CString(CString(s)) == CString(s)
  {
    CStringWhole(s);
    CStringWhole(CString(s));
  }

  /** The tokens after the `depth`-th unmatched close. */
  function Past(s: seq<Token>, depth: nat): Option<seq<Token>> {
    if depth == 0 then Some(s)
    else if s == [] then None
    else
      match s[0]
      case Item(_, _) => Past(s[1..], depth)
      case Open(_, _) => Past(s[1..], depth + 1)
      case Close => Past(s[1..], depth - 1)
  }

  predicate AtEnd(s: seq<Token>) {
    s == [] || s[0].Close?
  }

  predicate Starts(s: seq<Token>, kind: char, contents: string) {
    s != [] && s[0] == Open(kind, contents)
  }

  /** How many tokens from the start of `s` are items of one type. */
  function Run(s: seq<Token>, code: char): (n: nat)
    ensures n <= |s|
    ensures forall i | 0 <= i < n :: s[i].Item? && s[i].code == code
    ensures n < |s| ==> !(s[n].Item? && s[n].code == code)
  {
    if s != [] && s[0].Item? && s[0].code == code then 1 + Run(s[1..], code) else 0
  }

  function Items(code: char, payloads: seq<Payload>): (s: seq<Token>)
    ensures |s| == |payloads|
    ensures forall i | 0 <= i < |s| :: s[i] == Item(code, payloads[i])
  {
    seq(|payloads|, i requires 0 <= i < |payloads| => Item(code, payloads[i]))
  }

  function Payloads(s: seq<Token>): seq<Payload>
    requires forall i | 0 <= i < |s| :: s[i].Item?
  {
    seq(|s|, i requires 0 <= i < |s| => s[i].payload)
  }

  /** The element types of the bulk calls, with their widths in bytes. */
  function Width(b: Basic): nat {
    match b
    case Byte => 1
    case Int16 => 2
    case UInt16 => 2
    case Int32 => 4
    case UInt32 => 4
    case Int64 => 8
    case UInt64 => 8
    case Double => 8
    case _ => 0
  }

  lemma BytesToElements(b: Basic, n: nat)
    requires Width(b) > 0
    ensures n * Width(b) / Width(b) == n
  {
    match Width(b)
    case 1 => assert n * 1 / 1 == n;
    case 2 => assert n * 2 / 2 == n;
    case 4 => assert n * 4 / 4 == n;
    case 8 => assert n * 8 / 8 == n;
    case _ =>
  }

  class SdBusMessage {
    var tokens: seq<Token>
    var cursor: nat
    var containers: seq<char>

    ghost predicate Valid()
      reads this
    {
      cursor <= |tokens|
    }

    ghost function Rest(): seq<Token>
      requires Valid()
      reads this
    {
      tokens[cursor..]
    }

    constructor ()
      ensures tokens == [] && cursor == 0 && containers == []
    {
      tokens, cursor, containers := [], 0, [];
    }

    /** sd_bus_message_append_basic */
    method AppendBasic(code: char, payload: Payload)
      modifies this`tokens
      ensures tokens == old(tokens) + [Item(code, payload)]
    {
      tokens := tokens + [Item(code, payload)];
    }

    /** sd_bus_message_append_array */
    method AppendArray(b: Basic, data: seq<Payload>, sizeInBytes: nat)
      requires Width(b) > 0 && sizeInBytes == |data| * Width(b)
      modifies this`tokens
      ensures tokens == old(tokens) + [Open(ARRAY, [Code(b)])] + Items(Code(b), data) + [Close]
    {
      tokens := tokens + [Open(ARRAY, [Code(b)])] + Items(Code(b), data) + [Close];
    }

    /** sd_bus_message_open_container */
    method OpenContainer(kind: char, contents: string)
      modifies this`tokens, this`containers
      ensures tokens == old(tokens) + [Open(kind, CString(contents))]
      ensures containers == old(containers) + [kind]
    {
      tokens := tokens + [Open(kind, CString(contents))];
      containers := containers + [kind];
    }

    /** sd_bus_message_close_container */
    method CloseContainer()
      requires containers != []
      modifies this`tokens, this`containers
      ensures tokens == old(tokens) + [Close]
      ensures containers == old(containers)[..|old(containers)| - 1]
    {
      tokens := tokens + [Close];
      containers := containers[..|containers| - 1];
    }

    /** sd_bus_message_read_basic */
    method ReadBasic(code: char) returns (r: Option<Payload>)
      requires Valid()
      modifies this`cursor
      ensures Valid()
      ensures var s := old(Rest());
              if s != [] && s[0].Item? && s[0].code == code
              then r == Some(s[0].payload) && Rest() == s[1..]
              else r == None && Rest() == s
    {
      if cursor < |tokens| && tokens[cursor].Item? && tokens[cursor].code == code {
        r := Some(tokens[cursor].payload);
        cursor := cursor + 1;
      } else {
        r := None;
      }
    }

    /** sd_bus_message_read_array */
    method ReadArray(code: char, width: nat) returns (r: Option<(seq<Payload>, nat)>)
      requires Valid()
      modifies this`cursor
      ensures Valid()
      ensures var s := old(Rest());
              if Starts(s, ARRAY, [code]) && Run(s[1..], code) + 1 < |s|
                 && s[1..][Run(s[1..], code)].Close?
              then var n := Run(s[1..], code);
                   && r == Some((Payloads(s[1..][..n]), n * width))
                   && Rest() == s[1..][n + 1..]
              else r == None && Rest() == s
    {
      ghost var s := Rest();
      if cursor < |tokens| && tokens[cursor] == Open(ARRAY, [code]) {
        var body := tokens[cursor + 1..];
        assert body == s[1..];
        var n := Run(body, code);
        if n < |body| && body[n].Close? {
          r := Some((Payloads(body[..n]), n * width));
          cursor := cursor + n + 2;
          return;
        }
      }
      r := None;
    }

    /** sd_bus_message_verify_type */
    method VerifyType(kind: char, contents: string) returns (same: bool)
      requires Valid()
      ensures same <==> Starts(Rest(), kind, CString(contents))
    {
      same := cursor < |tokens| && tokens[cursor] == Open(kind, CString(contents));
    }

    /** sd_bus_message_enter_container */
    method EnterContainer(kind: char, contents: string) returns (ok: bool)
      requires Valid()
      modifies this`cursor, this`containers
      ensures Valid()
      ensures ok <==> Starts(old(Rest()), kind, CString(contents))
      ensures ok ==> Rest() == old(Rest())[1..] && containers == old(containers) + [kind]
      ensures !ok ==> Rest() == old(Rest()) && containers == old(containers)
    {
      ok := cursor < |tokens| && tokens[cursor] == Open(kind, CString(contents));
      if ok {
        cursor := cursor + 1;
        containers := containers + [kind];
      }
    }

    /** sd_bus_message_at_end */
    method AtEndOfContainer() returns (end: bool)
      requires Valid()
      ensures end <==> AtEnd(Rest())
    {
      end := cursor == |tokens| || tokens[cursor].Close?;
    }

    /** sd_bus_message_exit_container */
    method ExitContainer() returns (ok: bool)
      requires Valid() && containers != []
      modifies this`cursor, this`containers
      ensures Valid()
      ensures ok <==> old(Rest()) != [] && old(Rest())[0].Close?
      ensures ok ==> Rest() == old(Rest())[1..]
                     && containers == old(containers)[..|old(containers)| - 1]
      ensures !ok ==> Rest() == old(Rest()) && containers == old(containers)
    {
      ok := cursor < |tokens| && tokens[cursor].Close?;
      if ok {
        cursor := cursor + 1;
        containers := containers[..|containers| - 1];
      }
    }

    /** sd_bus_message_skip of one variant */
    method SkipVariant() returns (ok: bool)
      requires Valid()
      modifies this`cursor
      ensures Valid()
      ensures var s := old(Rest());
              if s != [] && s[0].Open? && s[0].kind == VARIANT && Past(s[1..], 1).Some?
              then ok && Rest() == Past(s[1..], 1).value
              else !ok && Rest() == s
    {
      ghost var s := Rest();
      ok := false;
      if cursor < |tokens| && tokens[cursor].Open? && tokens[cursor].kind == VARIANT {
        var body := tokens[cursor + 1..];
        assert body == s[1..];
        match Past(body, 1)
        case None =>
        case Some(after) =>
          PastSuffix(body, 1);
          cursor := |tokens| - |after|;
          ok := true;
      }
    }
  }

  lemma {:induction false} PastSuffix(s: seq<Token>, depth: nat)
    ensures Past(s, depth).Some? ==>
              |Past(s, depth).value| <= |s| && Past(s, depth).value == s[|s| - |Past(s, depth).value|..]
  {
    if depth != 0 && s != [] {
      match s[0]
      case Item(_, _) => PastSuffix(s[1..], depth);
      case Open(_, _) => PastSuffix(s[1..], depth + 1);
      case Close => PastSuffix(s[1..], depth - 1);
    }
  }
}
