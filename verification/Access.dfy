/**
 The buffer of blob accesses not yet written: bounded, without repetitions, and
 handed on exactly once.
 */
module Access {
  import opened Digests
  import opened Encoding
  import opened Sequences

  const MAX_PENDING := 100_000
  const MAX_BATCH_ITEMS := 10_000

  type Pair = (Namespace, Digest)

  function Tagged(ns: Namespace, digests: seq<Digest>): seq<Pair> {
    seq(|digests|, i requires 0 <= i < |digests| => (ns, digests[i]))
  }

  /** The pairs a buffer holds after these accesses, oldest first. */
  function Admitted(log: seq<Pair>): (held: seq<Pair>)
    ensures |held| <= MAX_PENDING
  {
    if log == [] then []
    else
      var held := Admitted(log[..|log| - 1]);
      if log[|log| - 1] in held || |held| >= MAX_PENDING then held else held + [log[|log| - 1]]
  }

  /** They are the first 100,000 different ones. */
  lemma {:induction false} AdmittedAreTheFirst(log: seq<Pair>)
    ensures var first := FirstOccurrences(log);
            Admitted(log) == first[..Min(MAX_PENDING, |first|)]
  {
    if log != [] {
      var init, last := log[..|log| - 1], log[|log| - 1];
      AdmittedAreTheFirst(init);
      FirstOccurrencesSnoc(init, last);
      assert init + [last] == log;
      var first := FirstOccurrences(init);
      if |first| <= MAX_PENDING {
        assert first[..|first|] == first;
      }
    }
  }

  lemma AdmittedSnoc(log: seq<Pair>, p: Pair)
    ensures Admitted(log + [p])
         == if p in Admitted(log) || |Admitted(log)| >= MAX_PENDING then Admitted(log) else Admitted(log) + [p]
  {
  }

  /** A full buffer takes nothing more. */
  lemma {:induction false} AdmittedFull(log: seq<Pair>, more: seq<Pair>)
    requires |Admitted(log)| >= MAX_PENDING
    ensures Admitted(log + more) == Admitted(log)
    decreases |more|
  {
    if more == [] {
      assert log + more == log;
    } else {
      AdmittedFull(log, more[..|more| - 1]);
      assert (log + more)[..|log + more| - 1] == log + more[..|more| - 1];
    }
  }

  /** The namespaces and digests listed, as pairs. */
  ghost predicate Holds(namespaces: map<Namespace, set<Digest>>, p: Pair) {
    p.0 in namespaces && p.1 in namespaces[p.0]
  }

  /** The digests held across all namespaces, counted set by set. */
  ghost function SizeSum(namespaces: map<Namespace, set<Digest>>): nat {
    if namespaces == map[] then 0
    else var ns :| ns in namespaces; |namespaces[ns]| + SizeSum(namespaces - {ns})
  }

  lemma {:induction false} ImageSize(ns: Namespace, digests: set<Digest>)
    ensures |set d | d in digests :: (ns, d)| == |digests|
  {
    if digests != {} {
      var x :| x in digests;
      ImageSize(ns, digests - {x});
      assert (set d | d in digests :: (ns, d)) == (set d | d in digests - {x} :: (ns, d)) + {(ns, x)};
    }
  }

  lemma {:induction false} PairsSize(namespaces: map<Namespace, set<Digest>>, pairs: set<Pair>)
    requires forall p: Pair :: p in pairs <==> Holds(namespaces, p)
    ensures |pairs| == SizeSum(namespaces)
    decreases |namespaces|
  {
    if namespaces == map[] {
      assert pairs == {};
    } else {
      var ns :| ns in namespaces && SizeSum(namespaces) == |namespaces[ns]| + SizeSum(namespaces - {ns});
      var here := set d | d in namespaces[ns] :: (ns, d);
      ImageSize(ns, namespaces[ns]);
      assert here <= pairs;
      PairsSize(namespaces - {ns}, pairs - here);
      assert pairs == here + (pairs - here);
    }
  }

  lemma {:induction false} AdmittedDistinct(log: seq<Pair>)
    ensures Distinct(Admitted(log))
  {
    AdmittedAreTheFirst(log);
  }

  class PendingAccess {
    var namespaces: map<Namespace, set<Digest>>
    var len: nat
    /** Every access noted since the last flush. */
    ghost var log: seq<Pair>

    /** The counter counts what is held, nothing empty is held, and it is the first 100,000 different pairs. */
    ghost predicate Valid()
      reads this
    {
      && len == |Admitted(log)|
      && (forall p: Pair :: Holds(namespaces, p) <==> p in Admitted(log))
      && (forall ns | ns in namespaces :: namespaces[ns] != {})
    }

    /** The counter is the sum of the sizes of the sets, and never passes the limit. */
    lemma CounterIsTheSum()
      requires Valid()
      ensures len == SizeSum(namespaces) <= MAX_PENDING
    {
      AdmittedDistinct(log);
      DistinctSize(Admitted(log));
      PairsSize(namespaces, set p | p in Admitted(log));
    }

    constructor ()
      ensures Valid() && log == []
    {
      namespaces, len, log := map[], 0, [];
    }

    /** Note a read. */
    method Record(ns: Namespace, digests: seq<Digest>)
      requires Valid()
      modifies this
      ensures Valid()
      ensures log == old(log) + Tagged(ns, digests)
    {
      ghost var before := log;
      log := log + Tagged(ns, digests);
      if digests == [] || len >= MAX_PENDING {
        if digests == [] {
          assert log == before;
        } else {
          AdmittedFull(before, Tagged(ns, digests));
        }
        return;
      }
      var held := if ns in namespaces then namespaces[ns] else {};
      held, len := Insert(before, ns, digests, held, len);
      namespaces := namespaces[ns := held];
    }

    /**
     Empty the buffer and hand on what it held: the calls made to the store, in
     order. Between them they carry each pair once, in batches no larger than
     the store takes.
     */
    method Flush() returns (calls: seq<(Namespace, seq<Digest>)>)
      requires Valid()
      modifies this
      ensures Valid() && log == [] && namespaces == map[] && len == 0
      ensures forall i | 0 <= i < |calls| :: 0 < |calls[i].1| <= MAX_BATCH_ITEMS
      ensures Distinct(Carried(calls))
      ensures forall p :: p in Carried(calls) <==> p in Admitted(old(log))
    {
      var taken := namespaces;
      ghost var held := Admitted(log);
      namespaces, len, log := map[], 0, [];
      calls := [];
      var rest := taken.Keys;
      while rest != {}
        invariant rest <= taken.Keys && namespaces == map[] && len == 0 && log == []
        invariant forall i | 0 <= i < |calls| :: 0 < |calls[i].1| <= MAX_BATCH_ITEMS
        invariant Distinct(Carried(calls))
        invariant forall p: Pair :: p in Carried(calls) <==> Holds(taken, p) && p.0 !in rest
      {
        var ns :| ns in rest;
        var digests := Listed(taken[ns]);
        calls := FlushNamespace(taken, rest, calls, ns, digests);
        rest := rest - {ns};
      }
    }
  }

  /** Admit one namespace's digests until the buffer is full; `held` is what it holds of that namespace. */
  method Insert(ghost log: seq<Pair>, ns: Namespace, digests: seq<Digest>, before: set<Digest>, room: nat)
    returns (held: set<Digest>, len: nat)
    requires digests != [] && room == |Admitted(log)| < MAX_PENDING
    requires forall d :: (ns, d) in Admitted(log) <==> d in before
    ensures held != {} && len == |Admitted(log + Tagged(ns, digests))|
    ensures forall p: Pair :: p in Admitted(log + Tagged(ns, digests)) <==>
              (if p.0 == ns then p.1 in held else p in Admitted(log))
  {
    hide Admitted;
    held, len := before, room;
    var i := 0;
    assert log + Tagged(ns, digests[..0]) == log;
    while i < |digests| && len < MAX_PENDING
      invariant i <= |digests| && len == |Admitted(log + Tagged(ns, digests[..i]))|
      invariant forall p: Pair :: p in Admitted(log + Tagged(ns, digests[..i])) <==>
                  (if p.0 == ns then p.1 in held else p in Admitted(log))
      invariant i == 0 ==> len < MAX_PENDING
      invariant i > 0 ==> held != {}
    {
      ghost var done := log + Tagged(ns, digests[..i]);
      assert log + Tagged(ns, digests[..i + 1]) == done + [(ns, digests[i])];
      AdmittedSnoc(done, (ns, digests[i]));
      if digests[i] !in held {
        held := held + {digests[i]};
        len := len + 1;
      }
      i := i + 1;
    }
    if i < |digests| {
      AdmittedFull(log + Tagged(ns, digests[..i]), Tagged(ns, digests[i..]));
      assert log + Tagged(ns, digests[..i]) + Tagged(ns, digests[i..]) == log + Tagged(ns, digests);
    } else {
      assert digests[..i] == digests;
    }
  }

  /** Everything the calls carry, in order. */
  function Carried(calls: seq<(Namespace, seq<Digest>)>): seq<Pair> {
    if calls == [] then []
    else Carried(calls[..|calls| - 1]) + Tagged(calls[|calls| - 1].0, calls[|calls| - 1].1)
  }

  /** A set's elements in some order. */
  method Listed(s: set<Digest>) returns (r: seq<Digest>)
    ensures Distinct(r) && forall x :: x in r <==> x in s
  {
    r := [];
    var rest := s;
    while rest != {}
      invariant rest <= s && Distinct(r)
      invariant forall x :: x in r <==> x in s && x !in rest
    {
      var x :| x in rest;
      r := r + [x];
      rest := rest - {x};
    }
  }

  /** One namespace's digests, a batch at a time. */
  method FlushNamespace(ghost taken: map<Namespace, set<Digest>>, ghost rest: set<Namespace>,
                        sent: seq<(Namespace, seq<Digest>)>, ns: Namespace, digests: seq<Digest>)
    returns (calls: seq<(Namespace, seq<Digest>)>)
    requires ns in rest && rest <= taken.Keys
    requires Distinct(digests) && forall d :: d in digests <==> d in taken[ns]
    requires forall i | 0 <= i < |sent| :: 0 < |sent[i].1| <= MAX_BATCH_ITEMS
    requires Distinct(Carried(sent))
    requires forall p: Pair :: p in Carried(sent) <==> Holds(taken, p) && p.0 !in rest
    ensures forall i | 0 <= i < |calls| :: 0 < |calls[i].1| <= MAX_BATCH_ITEMS
    ensures Distinct(Carried(calls))
    ensures forall p: Pair :: p in Carried(calls) <==> Holds(taken, p) && p.0 !in rest - {ns}
  {
    hide Carried;
    hide Tagged;
    calls := sent;
    var i := 0;
    TaggedNone(Carried(sent), ns, digests);
    while i < |digests|
      invariant i <= |digests|
      invariant forall k | 0 <= k < |calls| :: 0 < |calls[k].1| <= MAX_BATCH_ITEMS
      invariant Carried(calls) == Carried(sent) + Tagged(ns, digests[..i])
    {
      var end := Min(i + MAX_BATCH_ITEMS, |digests|);
      CarriedNext(calls, ns, digests[i..end]);
      TaggedNext(Carried(sent), ns, digests, i, end);
      calls := calls + [(ns, digests[i..end])];
      i := end;
    }
    assert digests[..i] == digests;
    TaggedMembers(ns, digests);
    TaggedDistinct(Carried(sent), ns, digests);
  }

  lemma CarriedNext(calls: seq<(Namespace, seq<Digest>)>, ns: Namespace, batch: seq<Digest>)
    ensures Carried(calls + [(ns, batch)]) == Carried(calls) + Tagged(ns, batch)
  {
    assert (calls + [(ns, batch)])[..|calls|] == calls;
  }

  lemma TaggedNone(before: seq<Pair>, ns: Namespace, digests: seq<Digest>)
    ensures before == before + Tagged(ns, digests[..0])
  {
  }

  lemma TaggedNext(before: seq<Pair>, ns: Namespace, digests: seq<Digest>, i: nat, end: nat)
    requires i <= end <= |digests|
    ensures before + Tagged(ns, digests[..i]) + Tagged(ns, digests[i..end]) == before + Tagged(ns, digests[..end])
  {
  }

  /** Different digests of a namespace not mentioned before. */
  lemma TaggedDistinct(before: seq<Pair>, ns: Namespace, digests: seq<Digest>)
    requires Distinct(before) && Distinct(digests) && forall p: Pair | p in before :: p.0 != ns
    ensures Distinct(before + Tagged(ns, digests))
  {
    var all := before + Tagged(ns, digests);
    forall i, j | 0 <= i < j < |all| ensures all[i] != all[j] {
      if i < |before| <= j {
        assert all[i] in before;
      }
    }
  }

  lemma TaggedMembers(ns: Namespace, digests: seq<Digest>)
    ensures forall p: Pair :: p in Tagged(ns, digests) <==> p.0 == ns && p.1 in digests
  {
    forall p: Pair | p.0 == ns && p.1 in digests ensures p in Tagged(ns, digests) {
      var i :| 0 <= i < |digests| && digests[i] == p.1;
      assert Tagged(ns, digests)[i] == p;
    }
  }
}
