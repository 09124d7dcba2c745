module Sequences {

  /** No two entries are equal. */
  predicate Distinct<T(==)>(s: seq<T>) {
    forall i, j | 0 <= i < j < |s| :: s[i] != s[j]
  }

  lemma ConsEqual<T>(x: T, tail: seq<T>, s: seq<T>)
    requires s != []
    ensures [x] + tail == s <==> x == s[0] && tail == s[1..]
  {
    assert ([x] + tail)[0] == x && ([x] + tail)[1..] == tail;
    assert s == [s[0]] + s[1..];
  }

  lemma SameParts<T>(s: seq<T>, t: seq<T>)
    requires s != [] && t != []
    ensures s == t <==> s[0] == t[0] && s[1..] == t[1..]
  {
    ConsEqual(s[0], s[1..], t);
    assert s == [s[0]] + s[1..];
  }
}
