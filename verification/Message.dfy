/** Appending to a message and reading from it again. */
module Message {
  import opened Wrappers
  import opened DbusTypes
  import opened DbusValues
  import opened Wire
  import opened Codec
  import opened Append
  import opened Read
  import opened Transfer
  import opened RoundTrip

  /** Both on one message: the arguments come back exactly when each of them can be written and
      is faithful.  `None` is an exception. */
  method AppendThenRead(ts: seq<Ty>, vs: seq<Val>) returns (r: Option<seq<Val>>)
    requires (forall t | t in ts :: Wf(t)) && HasTypes(ts, vs)
    ensures r == Some(vs) <==> AllNamed(ts, vs) && AllFaithful(ts, vs)
  {
    var m := new SdBusMessage();
    var ok := AppendArgs(m, ts, vs);
    if !ok {
      return None;
    }
    assert m.Rest() == EncodeAll(ts, vs);
    WholeMessage(ts, vs);
    var got := ReadArgs(m, ts, Defaults(ts));
    match got
    case Success(values) => r := Some(values);
    case Failure(_) => r := None;
  }

  lemma WholeMessage(ts: seq<Ty>, vs: seq<Val>)
    requires (forall t | t in ts :: Wf(t)) && AllWritable(ts, vs)
    ensures var p := ParseAll(ts, Defaults(ts), EncodeAll(ts, vs));
            p.Ok? && p.value == vs <==> AllFaithful(ts, vs)
  {
    assert EncodeAll(ts, vs) + [] == EncodeAll(ts, vs);
    DefaultsLength(ts);
    MessageTransfer(ts, Defaults(ts), ts, vs, []);
    MessageRoundTrips(ts, vs, []);
  }
}
