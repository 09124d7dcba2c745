/** `dedup_variant` and `merge_variants` (include/sdbusplus/utility), which widen a
    reader, and what widening does to reading. */
module MergeVariants {
  import opened Wrappers
  import opened Sequences
  import opened DbusTypes
  import opened DbusValues
  import opened Wire
  import opened Codec
  import opened Transfer
  import opened Choice

  /** `dedup_variant<std::variant<Done...>, Rest...>` */
  function Dedup(done: seq<Ty>, rest: seq<Ty>): seq<Ty>
    decreases rest
  {
    if rest == [] then done
    else if rest[0] in done then Dedup(done, rest[1..])
    else Dedup(done + [rest[0]], rest[1..])
  }

  /** `merge_variants<First, Others...>` on the lists of alternatives. */
  function Merge(first: seq<Ty>, others: seq<seq<Ty>>): seq<Ty>
    requires first != []
    decreases others
  {
    if others == [] then first
    else
      var next := Dedup(first[..1], first[1..] + others[0]);
      DedupGrows(first[..1], first[1..] + others[0]);
      Merge(next, others[1..])
  }

  lemma {:induction false} DedupGrows(done: seq<Ty>, rest: seq<Ty>)
    ensures done <= Dedup(done, rest)
    decreases rest
  {
    if rest != [] {
      if rest[0] in done {
        DedupGrows(done, rest[1..]);
      } else {
        DedupGrows(done + [rest[0]], rest[1..]);
      }
    }
  }

  // ---------------------------------------------------------------- first occurrences

  /** The entries of `s` that do not occur in `seen` or earlier in `s`, in order. */
  function FirstOccurrences(seen: set<Ty>, s: seq<Ty>): seq<Ty>
    decreases s
  {
    if s == [] then []
    else if s[0] in seen then FirstOccurrences(seen, s[1..])
    else [s[0]] + FirstOccurrences(seen + {s[0]}, s[1..])
  }

  function Flatten(s: seq<seq<Ty>>): seq<Ty> {
    if s == [] then [] else s[0] + Flatten(s[1..])
  }

  function Elements(s: seq<Ty>): set<Ty> {
    set t | t in s
  }

  lemma {:induction false} DedupIs(done: seq<Ty>, rest: seq<Ty>)
    ensures Dedup(done, rest) == done + FirstOccurrences(Elements(done), rest)
    decreases rest
  {
    if rest == [] {
      assert done + [] == done;
    } else if rest[0] in done {
      DedupIs(done, rest[1..]);
    } else {
      var now := done + [rest[0]];
      DedupIs(now, rest[1..]);
      assert Elements(now) == Elements(done) + {rest[0]};
      assert now + FirstOccurrences(Elements(now), rest[1..])
             == done + ([rest[0]] + FirstOccurrences(Elements(now), rest[1..]));
    }
  }

  lemma {:induction false} FirstOccurrencesOfConcat(seen: set<Ty>, s: seq<Ty>, t: seq<Ty>)
    ensures FirstOccurrences(seen, s + t)
            == FirstOccurrences(seen, s) + FirstOccurrences(seen + Elements(s), t)
    decreases s
  {
    if s == [] {
      assert s + t == t && seen + Elements(s) == seen;
    } else {
      assert (s + t)[1..] == s[1..] + t;
      assert Elements(s) == {s[0]} + Elements(s[1..]);
      var now := if s[0] in seen then seen else seen + {s[0]};
      FirstOccurrencesOfConcat(now, s[1..], t);
      assert now + Elements(s[1..]) == seen + Elements(s);
    }
  }

  lemma {:induction false} FirstOccurrencesAgain(seen: set<Ty>, s: seq<Ty>)
    ensures Elements(FirstOccurrences(seen, s)) == Elements(s) - seen
    ensures Distinct(FirstOccurrences(seen, s))
    ensures FirstOccurrences(seen, FirstOccurrences(seen, s)) == FirstOccurrences(seen, s)
    decreases s
  {
    if s != [] {
      assert Elements(s) == {s[0]} + Elements(s[1..]);
      if s[0] in seen {
        FirstOccurrencesAgain(seen, s[1..]);
      } else {
        FirstOccurrencesAgain(seen + {s[0]}, s[1..]);
        var tail := FirstOccurrences(seen + {s[0]}, s[1..]);
        assert Elements([s[0]] + tail) == {s[0]} + Elements(tail);
        assert s[0] !in Elements(tail);
      }
    }
  }

  /** Merging keeps the first occurrence of every alternative, in order: the result is
      the concatenated lists of alternatives without their later duplicates. */
  lemma {:induction false} MergeIs(first: seq<Ty>, others: seq<seq<Ty>>)
    requires first != []
    ensures others != [] ==> Merge(first, others) == FirstOccurrences({}, first + Flatten(others))
    decreases others
  {
    if others != [] {
      var all := first + others[0];
      var next := Dedup(first[..1], first[1..] + others[0]);
      MergeStep(first, others[0]);
      DedupGrows(first[..1], first[1..] + others[0]);
      MergeIs(next, others[1..]);
      assert first + Flatten(others) == all + Flatten(others[1..]);
      DedupFirst(all, Flatten(others[1..]));
      assert Flatten([]) == [] && all + [] == all;
    }
  }

  /** Duplicates may be removed from the front first. */
  lemma DedupFirst(front: seq<Ty>, more: seq<Ty>)
    ensures FirstOccurrences({}, FirstOccurrences({}, front) + more) == FirstOccurrences({}, front + more)
  {
    var next := FirstOccurrences({}, front);
    FirstOccurrencesOfConcat({}, front, more);
    FirstOccurrencesOfConcat({}, next, more);
    FirstOccurrencesAgain({}, front);
    assert {} + Elements(front) == Elements(front) - {} && {} + Elements(next) == Elements(next);
  }

  lemma MergeStep(first: seq<Ty>, other: seq<Ty>)
    requires first != []
    ensures Dedup(first[..1], first[1..] + other) == FirstOccurrences({}, first + other)
  {
    DedupIs(first[..1], first[1..] + other);
    assert (first + other)[1..] == first[1..] + other;
    assert Elements(first[..1]) == {} + {first[0]};
    assert first[..1] == [first[0]];
  }

  lemma {:induction false} FirstOccurrencesOfDistinct(seen: set<Ty>, s: seq<Ty>)
    requires Distinct(s) && forall i | 0 <= i < |s| :: s[i] !in seen
    ensures FirstOccurrences(seen, s) == s
    decreases s
  {
    if s != [] {
      assert forall i | 0 <= i < |s[1..]| :: s[1..][i] == s[i + 1] != s[0];
      FirstOccurrencesOfDistinct(seen + {s[0]}, s[1..]);
    }
  }

  /** A merged variant starts with the first one and has no duplicates. */
  lemma MergeExtends(first: seq<Ty>, others: seq<seq<Ty>>)
    requires first != [] && Distinct(first)
    ensures first <= Merge(first, others) && Distinct(Merge(first, others))
    ensures Elements(Merge(first, others)) == Elements(first) + Elements(Flatten(others))
  {
    MergeIs(first, others);
    if others != [] {
      FirstOccurrencesOfConcat({}, first, Flatten(others));
      FirstOccurrencesOfDistinct({}, first);
      FirstOccurrencesAgain({}, first + Flatten(others));
      assert Elements(first + Flatten(others)) == Elements(first) + Elements(Flatten(others));
    } else {
      assert Elements(Flatten(others)) == {};
    }
  }

  // ---------------------------------------------------------------- widening a reader

  lemma {:induction false} FirstMatchOfPrefix(first: seq<Ty>, more: seq<Ty>, at: nat, contents: string)
    requires FirstMatch(first, at, contents).Some?
    ensures FirstMatch(first + more, at, contents) == FirstMatch(first, at, contents)
    decreases first
  {
    var all := first + more;
    assert all[0] == first[0];
    if CString(Sig(first[0])) != contents {
      assert all[1..] == first[1..] + more;
      FirstMatchOfPrefix(first[1..], more, at + 1, contents);
    }
  }

  /** Widening does not change how a wire type is read that the first variant accepted
      and that is not the string type. */
  lemma WideningKeeps(first: seq<Ty>, others: seq<seq<Ty>>, dest: Val, s: seq<Token>)
    requires Wf(Variant(first))
    requires s != [] && s[0].Open? && s[0].contents != "s" && FirstMatch(first, 0, s[0].contents).Some?
    ensures Parse(Variant(Merge(first, others)), dest, s) == Parse(Variant(first), dest, s)
  {
    var merged := Merge(first, others);
    MergeExtends(first, others);
    var more := merged[|first|..];
    assert merged == first + more;
    FirstMatchOfPrefix(first, more, 0, s[0].contents);
    var j := FirstMatch(first, 0, s[0].contents).value;
    assert merged[j] == first[j];
    assert CString("s") == "s";
    assert !ConvertsFromString(first[j]);
  }

  /** For a string the first variant keeps its say when one of its own alternatives
      claims it, or when no added alternative does and the last resort stays the same. */
  predicate KeepsString(first: seq<Ty>, merged: seq<Ty>, str: string) {
    || (exists a :: a in first && Converted(a, str).Some?)
    || ((forall a | a in merged :: Converted(a, str).None?) && (Str in first || Str !in merged))
  }

  lemma WideningString(first: seq<Ty>, others: seq<seq<Ty>>, str: string)
    requires first != [] && Distinct(first)
    ensures Process(Merge(first, others), 0, str) == Process(first, 0, str)
            <==> KeepsString(first, Merge(first, others), str)
  {
    MergeExtends(first, others);
    StringOfPrefix(first, Merge(first, others), str);
  }

  lemma StringOfPrefix(first: seq<Ty>, merged: seq<Ty>, str: string)
    requires first <= merged && Distinct(merged)
    ensures Process(merged, 0, str) == Process(first, 0, str) <==> KeepsString(first, merged, str)
  {
    assert forall j | 0 <= j < |first| :: merged[j] == first[j] && merged[j] in merged;
    assert Distinct(first);
    ProcessIs(first, 0, str);
    ProcessIs(merged, 0, str);
    var k, k' := FirstClaim(first, str), FirstClaim(merged, str);
    if k < |first| {
      assert first[k] in first && k' == k;
    } else if k' < |merged| {
      assert k' >= |first| && merged[k'] in merged;
    } else {
      StrFound(first);
      StrFound(merged);
    }
  }

  lemma StrFound(s: seq<Ty>)
    ensures Str in s <==> StrIndex(s) < |s|
  {
    if Str in s {
      var j :| 0 <= j < |s| && s[j] == Str;
      assert StrIndex(s) <= j;
    }
  }
}
