/** History trimming over whole eviction units (arslan/runtime_policy.py, `bounded_history`). */
module History {
  import opened Wrappers
  import opened Trajectory

  type Unit = seq<Message>

  type Measure = Unit -> nat

  // ---------------------------------------------------------------------------
  // Units
  // ---------------------------------------------------------------------------

  /** An assistant message with an opaque provider block; it is kept with the message after it. */
  predicate IsProvider(m: Message) {
    m.role == Assistant && m.content.Blocks? && exists b :: b in m.content.blocks && b.kind == "provider_content"
  }

  ghost predicate ProviderPair(h: seq<Message>) {
    |h| > 1 && IsProvider(h[0])
  }

  ghost function UnitLength(h: seq<Message>): (n: nat)
    requires h != []
    ensures 0 < n <= |h|
  {
    if ProviderPair(h) then 2 else GroupLength(h)
  }

  ghost function Units(h: seq<Message>): (gs: seq<Unit>)
    ensures h == [] <==> gs == []
    decreases |h|
  {
    if h == [] then [] else [h[..UnitLength(h)]] + Units(h[UnitLength(h)..])
  }

  ghost predicate NonEmptyUnits(gs: seq<Unit>) {
    forall i :: 0 <= i < |gs| ==> gs[i] != []
  }

  lemma {:induction false} UnitsFlat(h: seq<Message>)
    ensures Flat(Units(h)) == h
    ensures NonEmptyUnits(Units(h))
    decreases |h|
  {
    if h != [] {
      UnitsFlat(h[UnitLength(h)..]);
      var gs := Units(h);
      assert gs[1..] == Units(h[UnitLength(h)..]);
    }
  }

  /** `h` opens with `u`: a provider message with the one after it, if there is one, or else a whole group. */
  ghost predicate OpensWithUnit(h: seq<Message>, u: Unit) {
    if |h| > 1 && IsProvider(h[0]) then u == h[..2] else OpensWith(h, u)
  }

  /** Such units, one after the other, are all of `h`. */
  ghost predicate InUnits(h: seq<Message>, us: seq<Unit>)
    decreases |us|
  {
    if us == [] then h == [] else OpensWithUnit(h, us[0]) && InUnits(h[|us[0]|..], us[1..])
  }

  lemma {:induction false} UnitsAreWhole(h: seq<Message>)
    ensures InUnits(h, Units(h))
    decreases |h|
  {
    if h != [] {
      var n := UnitLength(h);
      if !ProviderPair(h) { FirstGroupIsWhole(h); }
      assert Units(h)[1..] == Units(h[n..]);
      UnitsAreWhole(h[n..]);
    }
  }

  /** A provider pair splits a call from its answers when its second message is a call, or when its first
      is a call with more than one answer. */
  ghost predicate SplitsCall(h: seq<Message>) {
    ProviderPair(h) && (IsHead(h[1]) || |h[0].calls| > 1)
  }

  ghost predicate NoSplit(h: seq<Message>)
    decreases |h|
  {
    h == [] || (!SplitsCall(h) && NoSplit(h[UnitLength(h)..]))
  }

  /** Every suffix of whole units is paired. */
  ghost predicate SuffixesAccepted(gs: seq<Unit>) {
    forall k :: 0 <= k <= |gs| ==> Accepts(Flat(gs[k..]))
  }

  lemma FirstUnitAccepted(h: seq<Message>)
    requires h != [] && Accepts(h) && !SplitsCall(h)
    ensures Accepts(h[..UnitLength(h)]) && Accepts(h[UnitLength(h)..])
  {
    var n := UnitLength(h);
    var u, rest := h[..n], h[n..];
    assert h == u + rest;
    AcceptsStep(h);
    AcceptsStep(u);
    if IsHead(h[0]) {
      var after := h[1 + |h[0].calls|..];
      if after != [] { AcceptsStep(after); }
      assert n == 1 + |h[0].calls| by {
        if !ProviderPair(h) { CallUnitIsExact(h); }
      }
      assert AnsweredAt(u, 0);
      assert u[1 + |h[0].calls|..] == [];
    } else {
      assert h[1..] == u[1..] + rest;
      if n == 2 {
        AcceptsStep(h[1..]);
        AcceptsStep(u[1..]);
        assert u[1..][1..] == [];
      } else {
        assert u[1..] == [];
      }
    }
    AcceptsConcat(u, rest);
  }

  /** In an accepted history the results after a call message are exactly its answers. */
  lemma CallUnitIsExact(h: seq<Message>)
    requires h != [] && Accepts(h) && IsHead(h[0])
    ensures GroupLength(h) == 1 + |h[0].calls|
  {
    AcceptsStep(h);
    var n, rest := |h[0].calls|, h[1 + |h[0].calls|..];
    assert forall k :: 0 <= k < n ==> h[1..][k] == h[k + 1];
    if rest != [] {
      AcceptsStep(rest);
      assert rest[0] == h[1..][n];
    }
  }

  /** Evicting whole units keeps every accepted history accepted, exactly when no provider pair splits a call. */
  lemma {:induction false} SuffixesAcceptedIff(h: seq<Message>)
    requires Accepts(h)
    ensures NoSplit(h) <==> SuffixesAccepted(Units(h))
    decreases |h|
  {
    UnitsFlat(h);
    var gs := Units(h);
    if h == [] {
    } else if SplitsCall(h) {
      SplitOrphans(h);
      UnitsFlat(h[2..]);
      assert gs[1..] == Units(h[2..]);
    } else {
      var rest := h[UnitLength(h)..];
      FirstUnitAccepted(h);
      SuffixesAcceptedIff(rest);
      assert gs[1..] == Units(rest);
      assert gs[0..] == gs;
      assert forall k :: 1 <= k <= |gs| ==> gs[k..] == Units(rest)[k - 1..];
      if SuffixesAccepted(gs) {
        assert forall k :: 0 <= k <= |Units(rest)| ==> Units(rest)[k..] == gs[k + 1..];
      }
    }
  }

  /** What is left after evicting a pair that splits a call starts with an orphan result. */
  lemma SplitOrphans(h: seq<Message>)
    requires Accepts(h) && SplitsCall(h)
    ensures !Accepts(h[2..])
  {
    AcceptsStep(h);
    if IsHead(h[0]) {
      assert !IsHead(h[1]) by { assert IsResult(h[1]); }
      assert IsResult(h[2]);
    } else {
      AcceptsStep(h[1..]);
      assert IsResult(h[1..][1]);
    }
    AcceptsStep(h[2..]);
  }

  // ---------------------------------------------------------------------------
  // The protected tail
  // ---------------------------------------------------------------------------

  /** The longest run of old units whose removal leaves at least `tail` messages. */
  ghost function TailStart(gs: seq<Unit>, tail: nat): (m: nat)
    requires tail <= |Flat(gs)|
    ensures m <= |gs| && tail <= |Flat(gs[m..])|
    ensures m < |gs| ==> |Flat(gs[m + 1..])| < tail
  {
    if gs == [] || |Flat(gs[1..])| < tail then 0
    else
      var m := TailStart(gs[1..], tail);
      assert gs[1..][m..] == gs[m + 1..];
      assert m < |gs| - 1 ==> gs[1..][m + 1..] == gs[m + 2..];
      m + 1
  }

  /** The last units, together holding at least `tail` messages, become one. */
  ghost function WithTail(gs: seq<Unit>, tail: nat): seq<Unit>
    requires tail <= |Flat(gs)|
  {
    if tail == 0 then gs else gs[..TailStart(gs, tail)] + [Flat(gs[TailStart(gs, tail)..])]
  }

  lemma WithTailSuffix(gs: seq<Unit>, tail: nat, k: nat)
    requires tail <= |Flat(gs)| && k < |WithTail(gs, tail)|
    ensures k < |gs| || tail > 0
    ensures k <= |gs| && Flat(WithTail(gs, tail)[k..]) == Flat(gs[k..])
  {
    if tail > 0 { MergedSuffix(gs, TailStart(gs, tail), k); }
  }

  lemma MergedSuffix(gs: seq<Unit>, m: nat, k: nat)
    requires k <= m <= |gs|
    ensures Flat((gs[..m] + [Flat(gs[m..])])[k..]) == Flat(gs[k..])
  {
    var before, last := gs[k..m], gs[m..];
    assert (gs[..m] + [Flat(last)])[k..] == before + [Flat(last)] && gs[k..] == before + last;
    FlatConcat(before, [Flat(last)]);
    FlatConcat(before, last);
    assert Flat([Flat(last)]) == Flat(last) + Flat([]);
  }

  // ---------------------------------------------------------------------------
  // The cut
  // ---------------------------------------------------------------------------

  ghost function Total(gs: seq<Unit>, size: Measure): nat {
    if gs == [] then 0 else size(gs[0]) + Total(gs[1..], size)
  }

  lemma {:induction false} TotalConcat(a: seq<Unit>, b: seq<Unit>, size: Measure)
    ensures Total(a + b, size) == Total(a, size) + Total(b, size)
  {
    if a == [] {
      assert a + b == b;
    } else {
      assert (a + b)[1..] == a[1..] + b;
      TotalConcat(a[1..], b, size);
    }
  }

  /** `k` units go so that what stays is one unit or fits, and no longer suffix would. */
  ghost predicate LongestFit(gs: seq<Unit>, size: Measure, bound: int, k: nat) {
    && k <= |gs| && (gs != [] ==> k < |gs|)
    && (|gs| - k <= 1 || Total(gs[k..], size) <= bound)
    && forall j :: 0 <= j < k ==> |gs| - j > 1 && Total(gs[j..], size) > bound
  }

  /** Drop the oldest unit until what is left is one unit or fits. */
  ghost function Cut(gs: seq<Unit>, size: Measure, bound: int): (k: nat)
    ensures k <= |gs|
    decreases |gs|
  {
    if |gs| <= 1 || Total(gs, size) <= bound then 0 else 1 + Cut(gs[1..], size, bound)
  }

  lemma {:induction false} CutStops(gs: seq<Unit>, size: Measure, bound: int)
    ensures var k := Cut(gs, size, bound);
            && (gs != [] ==> k < |gs|)
            && (|gs| - k <= 1 || Total(gs[k..], size) <= bound)
            && (k > 0 ==> Total(gs[k - 1..], size) > bound)
    decreases |gs|
  {
    var k := Cut(gs, size, bound);
    if k == 0 {
      assert gs[0..] == gs;
    } else {
      CutStops(gs[1..], size, bound);
      assert gs[1..][k - 1..] == gs[k..];
      if k > 1 {
        assert gs[1..][k - 2..] == gs[k - 1..];
      } else {
        assert gs[0..] == gs;
      }
    }
  }

  lemma CutIsLongestFit(gs: seq<Unit>, size: Measure, bound: int)
    ensures LongestFit(gs, size, bound, Cut(gs, size, bound))
  {
    CutStops(gs, size, bound);
    var k := Cut(gs, size, bound);
    forall j | 0 <= j < k ensures |gs| - j > 1 && Total(gs[j..], size) > bound {
      TotalSuffix(gs, size, j, k - 1);
    }
  }

  lemma TotalSuffix(gs: seq<Unit>, size: Measure, i: nat, j: nat)
    requires i <= j <= |gs|
    ensures Total(gs[j..], size) <= Total(gs[i..], size)
  {
    assert gs[i..] == gs[i..j] + gs[j..];
    TotalConcat(gs[i..j], gs[j..], size);
  }

  /** The newest-first greedy loop stops exactly where dropping from the oldest end stops. */
  lemma GreedyIsCut(gs: seq<Unit>, size: Measure, bound: int, k: nat)
    requires k <= |gs| && (gs != [] ==> k < |gs|)
    requires |gs| - k <= 1 || Total(gs[k..], size) <= bound
    requires k > 0 ==> |gs| - k >= 1 && Total(gs[k - 1..], size) > bound
    ensures k == Cut(gs, size, bound)
  {
    CutIsLongestFit(gs, size, bound);
    var c := Cut(gs, size, bound);
    if c < k { TotalSuffix(gs, size, c, k - 1); }
  }

  /** A smaller bound cuts at the same place or later. */
  lemma CutMonotone(gs: seq<Unit>, size: Measure, low: int, high: int)
    requires low <= high
    ensures Cut(gs, size, high) <= Cut(gs, size, low)
  {
    CutIsLongestFit(gs, size, low);
    CutIsLongestFit(gs, size, high);
  }

  // ---------------------------------------------------------------------------
  // bounded_history
  // ---------------------------------------------------------------------------

  /** The newest unit shed of its oldest results when it is a call group too large on its own. */
  ghost function Fitted(gs: seq<Unit>, maxChars: int, size: Measure): seq<Unit>
    requires NonEmptyUnits(gs)
  {
    if gs == [] then [] else gs[..|gs| - 1] + [Shrink(gs[|gs| - 1], maxChars, size)]
  }

  ghost predicate NewestOversized(gs: seq<Unit>, maxChars: int, size: Measure)
    requires NonEmptyUnits(gs)
  {
    gs != [] && Oversized(gs[|gs| - 1], maxChars, size)
  }

  ghost function CutTo(gs: seq<Unit>, size: Measure, maxChars: int, trimTo: Option<int>): nat {
    var k := Cut(gs, size, maxChars);
    if trimTo.Some? && trimTo.value < maxChars && k > 0 then Cut(gs, size, trimTo.value) else k
  }

  ghost function Candidates(h: seq<Message>, tail: nat): seq<Unit>
    requires tail <= |h|
  {
    UnitsFlat(h);
    WithTail(Units(h), tail)
  }

  lemma CandidatesNonEmpty(h: seq<Message>, tail: nat)
    requires tail <= |h|
    ensures NonEmptyUnits(Candidates(h, tail))
    ensures h == [] <==> Candidates(h, tail) == []
  {
    UnitsFlat(h);
  }

  /** The units trimming chooses from: the tail merged, or else the newest one fitted. */
  ghost function FittedUnits(h: seq<Message>, maxChars: int, tail: nat, size: Measure): seq<Unit>
    requires tail <= |h|
  {
    CandidatesNonEmpty(h, tail);
    if tail == 0 then Fitted(Candidates(h, tail), maxChars, size) else Candidates(h, tail)
  }

  datatype Bounded = Bounded(history: seq<Message>, changed: bool)

  ghost function BoundedHistory(h: seq<Message>, maxChars: int, tail: int, size: Measure, trimTo: Option<int>)
    : Result<Bounded, string>
  {
    if !(0 <= tail <= |h|) then Err("invalid history tail")
    else
      CandidatesNonEmpty(h, tail);
      var fitted := FittedUnits(h, maxChars, tail, size);
      var result := Flat(fitted[CutTo(fitted, size, maxChars, trimTo)..]);
      Ok(Bounded(result, (tail == 0 && NewestOversized(Candidates(h, 0), maxChars, size)) || |result| != |h|))
  }

  // ---------------------------------------------------------------------------
  // The loops
  // ---------------------------------------------------------------------------

  lemma UnitsUnfold(h: seq<Message>, index: nat, end: nat)
    requires index < |h| && end == index + UnitLength(h[index..])
    ensures end <= |h| && Units(h[index..]) == [h[index..end]] + Units(h[end..])
  {
    var rest := h[index..];
    assert rest[..end - index] == h[index..end];
    assert rest[end - index..] == h[end..];
  }

  lemma UnitLengthAt(h: seq<Message>, index: nat)
    requires index < |h|
    ensures UnitLength(h[index..]) == if IsProvider(h[index]) && index + 1 < |h| then 2 else GroupLength(h[index..])
  {
    assert h[index..][0] == h[index];
  }

  lemma OneMore(gs: seq<Unit>, u: Unit, rest: seq<Unit>)
    ensures gs + ([u] + rest) == gs + [u] + rest
  {
  }

  method SplitUnits(h: seq<Message>) returns (gs: seq<Unit>)
    ensures gs == Units(h)
  {
    gs := [];
    var index := 0;
    while index < |h|
      invariant index <= |h|
      invariant Units(h) == gs + Units(h[index..])
    {
      var end := index + 2;
      if !(IsProvider(h[index]) && index + 1 < |h|) {
        end := GroupEnd(h, index);
      }
      UnitLengthAt(h, index);
      UnitsUnfold(h, index, end);
      OneMore(gs, h[index..end], Units(h[end..]));
      gs := gs + [h[index..end]];
      index := end;
    }
  }

  method ProtectTail(units: seq<Unit>, preserveTail: nat) returns (gs: seq<Unit>)
    requires preserveTail <= |Flat(units)|
    ensures gs == WithTail(units, preserveTail)
  {
    gs := units;
    if preserveTail > 0 {
      var tail: seq<Unit> := [];
      var count := 0;
      while gs != [] && count < preserveTail
        invariant units == gs + tail
        invariant count == |Flat(tail)|
        invariant |gs| < |units| ==> |Flat(units[|gs| + 1..])| < preserveTail
        decreases |gs|
      {
        var group := gs[|gs| - 1];
        gs := gs[..|gs| - 1];
        assert units[|gs| + 1..] == tail;
        tail := [group] + tail;
        count := count + |group|;
      }
      assert units[|gs|..] == tail;
      TailStartIs(units, preserveTail, |gs|);
      gs := gs + [Flat(tail)];
    }
  }

  lemma TailStartIs(gs: seq<Unit>, tail: nat, m: nat)
    requires tail <= |Flat(gs)| && m <= |gs| && tail <= |Flat(gs[m..])|
    requires m < |gs| ==> |Flat(gs[m + 1..])| < tail
    requires m == |gs| ==> tail == 0
    ensures m == TailStart(gs, tail)
  {
    var t := TailStart(gs, tail);
    if t < m {
      FlatSuffix(gs, t + 1, m);
    } else if m < t {
      FlatSuffix(gs, m + 1, t);
    }
  }

  lemma FlatSuffix(gs: seq<Unit>, i: nat, j: nat)
    requires i <= j <= |gs|
    ensures |Flat(gs[j..])| <= |Flat(gs[i..])|
  {
    assert gs[i..] == gs[i..j] + gs[j..];
    FlatConcat(gs[i..j], gs[j..]);
  }

  method Keep(gs: seq<Unit>, maxChars: int, bound: int, preserved: bool, size: Measure)
    returns (kept: seq<Unit>, shrunk: bool)
    requires NonEmptyUnits(gs)
    ensures var fitted := if preserved then gs else Fitted(gs, maxChars, size);
            kept == fitted[Cut(fitted, size, bound)..]
    ensures shrunk == (!preserved && NewestOversized(gs, maxChars, size))
  {
    ghost var fitted := if preserved then gs else Fitted(gs, maxChars, size);
    var total, i := 0, |gs|;
    kept, shrunk := [], false;
    while i > 0
      invariant 0 <= i <= |gs| == |fitted|
      invariant kept == fitted[i..] && total == Total(kept, size)
      invariant i == |gs| || |gs| - i <= 1 || total <= bound
      invariant shrunk == (i < |gs| && !preserved && NewestOversized(gs, maxChars, size))
    {
      var group := gs[i - 1];
      if kept == [] && !preserved {
        group, shrunk := ShrinkGroup(group, maxChars, size);
      }
      assert group == fitted[i - 1];
      assert fitted[i - 1..] == [group] + kept;
      if kept != [] && total + size(group) > bound {
        break;
      }
      kept := [group] + kept;
      total := total + size(group);
      i := i - 1;
    }
    GreedyIsCut(fitted, size, bound, i);
  }

  method TrimHistory(h: seq<Message>, maxChars: int, preserveTail: int, size: Measure, trimTo: Option<int>)
    returns (r: Result<Bounded, string>)
    ensures r == BoundedHistory(h, maxChars, preserveTail, size, trimTo)
  {
    if !(0 <= preserveTail <= |h|) {
      return Err("invalid history tail");
    }
    var units := SplitUnits(h);
    UnitsFlat(h);
    CandidatesNonEmpty(h, preserveTail);
    var groups := ProtectTail(units, preserveTail);
    var kept, shrunk := Keep(groups, maxChars, maxChars, preserveTail > 0, size);
    if trimTo.Some? && trimTo.value < maxChars && |kept| < |groups| {
      kept, shrunk := Keep(groups, maxChars, trimTo.value, preserveTail > 0, size);
    }
    var result := Flat(kept);
    return Ok(Bounded(result, shrunk || |result| != |h|));
  }

  // ---------------------------------------------------------------------------
  // What trimming keeps
  // ---------------------------------------------------------------------------

  /** The newest unit as it is kept: shrunk when unprotected and too large on its own. */
  ghost function Newest(h: seq<Message>, maxChars: int, tail: nat, size: Measure): (newest: Unit)
    ensures SameRecords(LastUnit(h), newest)
  {
    if tail > 0 || h == [] then LastUnit(h)
    else
      UnitsFlat(h);
      ShrinkKeepsRecords(LastUnit(h), maxChars, size);
      Shrink(LastUnit(h), maxChars, size)
  }

  ghost function LastUnit(h: seq<Message>): (u: Unit)
    ensures h != [] ==> u != []
  {
    UnitsFlat(h);
    if h == [] then [] else Units(h)[|Units(h)| - 1]
  }

  /** How many units trimming evicts. */
  ghost function Evicted(h: seq<Message>, maxChars: int, tail: nat, size: Measure, trimTo: Option<int>): nat
    requires tail <= |h|
  {
    CutTo(FittedUnits(h, maxChars, tail, size), size, maxChars, trimTo)
  }

  lemma FlatLast(us: seq<Unit>, k: nat)
    requires k < |us|
    ensures Flat(us[k..]) == Flat(us[k..|us| - 1]) + us[|us| - 1]
  {
    var n := |us| - 1;
    assert us[k..] == us[k..n] + [us[n]];
    FlatConcat(us[k..n], [us[n]]);
    assert Flat([us[n]]) == us[n] + Flat([]);
  }

  lemma ShrunkSuffix(us: seq<Unit>, last: Unit, k: nat)
    requires k < |us| && |last| == |us[|us| - 1]| && NonEmptyUnits(us)
    ensures var fitted := us[..|us| - 1] + [last];
            && Flat(fitted[k..]) == Flat(us[k..|us| - 1]) + last
            && (|Flat(fitted[k..])| == |Flat(us)| <==> k == 0)
  {
    var fitted := us[..|us| - 1] + [last];
    FlatLast(fitted, k);
    assert fitted[k..|us| - 1] == us[k..|us| - 1];
    FlatLast(us, k);
    EvictedLength(us, k);
  }

  lemma TailedSuffix(us: seq<Unit>, tail: nat, k: nat)
    requires 0 < tail <= |Flat(us)| && k < |WithTail(us, tail)| && NonEmptyUnits(us)
    ensures k < |us| && k <= TailStart(us, tail)
    ensures Flat(WithTail(us, tail)[k..]) == Flat(us[k..|us| - 1]) + us[|us| - 1]
    ensures |Flat(WithTail(us, tail)[k..])| == |Flat(us)| <==> k == 0
  {
    WithTailSuffix(us, tail, k);
    FlatLast(us, k);
    EvictedLength(us, k);
  }

  /** The last `tail` messages lie in the units from here on. */
  ghost function TailAt(h: seq<Message>, tail: nat): nat
    requires tail <= |h|
  {
    UnitsFlat(h);
    TailStart(Units(h), tail)
  }

  /** `r` is what stays of `h` when `k` units go. */
  ghost predicate Keeps(h: seq<Message>, maxChars: int, tail: nat, size: Measure, k: nat, r: seq<Message>)
    requires tail <= |h|
  {
    && k < |Units(h)| && r == Flat(Units(h)[k..|Units(h)| - 1]) + Newest(h, maxChars, tail, size)
    && (tail > 0 ==> k <= TailAt(h, tail))
    && (|r| == |h| <==> k == 0)
  }

  lemma FittedSuffix(h: seq<Message>, maxChars: int, tail: nat, size: Measure, k: nat)
    requires tail <= |h| && k < |FittedUnits(h, maxChars, tail, size)|
    ensures Keeps(h, maxChars, tail, size, k, Flat(FittedUnits(h, maxChars, tail, size)[k..]))
  {
    if tail == 0 { UnprotectedSuffix(h, maxChars, size, k); } else { ProtectedSuffix(h, maxChars, tail, size, k); }
  }

  lemma UnprotectedSuffix(h: seq<Message>, maxChars: int, size: Measure, k: nat)
    requires k < |FittedUnits(h, maxChars, 0, size)|
    ensures Keeps(h, maxChars, 0, size, k, Flat(FittedUnits(h, maxChars, 0, size)[k..]))
  {
    UnitsFlat(h);
    var us, newest := Units(h), Newest(h, maxChars, 0, size);
    assert FittedUnits(h, maxChars, 0, size) == us[..|us| - 1] + [newest];
    ShrunkSuffix(us, newest, k);
  }

  lemma ProtectedSuffix(h: seq<Message>, maxChars: int, tail: nat, size: Measure, k: nat)
    requires 0 < tail <= |h| && k < |FittedUnits(h, maxChars, tail, size)|
    ensures Keeps(h, maxChars, tail, size, k, Flat(FittedUnits(h, maxChars, tail, size)[k..]))
  {
    UnitsFlat(h);
    var us, r := Units(h), Flat(FittedUnits(h, maxChars, tail, size)[k..]);
    TailedUnits(h, us, maxChars, tail, size, k);
    assert Newest(h, maxChars, tail, size) == us[|us| - 1];
  }

  lemma TailedUnits(h: seq<Message>, us: seq<Unit>, maxChars: int, tail: nat, size: Measure, k: nat)
    requires 0 < tail <= |h| && k < |FittedUnits(h, maxChars, tail, size)|
    requires us == Units(h) && Flat(us) == h && NonEmptyUnits(us)
    ensures var r := Flat(FittedUnits(h, maxChars, tail, size)[k..]);
      && k < |us| && r == Flat(us[k..|us| - 1]) + us[|us| - 1] && k <= TailAt(h, tail) && (|r| == |h| <==> k == 0)
  {
    TailedSuffix(us, tail, k);
  }

  /** Trimming keeps the units from some number `k` on; only the newest may be shrunk, and only unprotected;
      the flag tells exactly whether a unit was evicted or the newest one was shed of results. */
  lemma TrimmingKeepsWholeUnits(h: seq<Message>, maxChars: int, tail: nat, size: Measure, trimTo: Option<int>)
    requires tail <= |h| && h != []
    ensures var b, k := BoundedHistory(h, maxChars, tail, size, trimTo), Evicted(h, maxChars, tail, size, trimTo);
            && b.Ok? && Keeps(h, maxChars, tail, size, k, b.value.history)
            && (b.value.changed <==> k > 0 || (tail == 0 && Oversized(LastUnit(h), maxChars, size)))
  {
    EvictsFew(h, maxChars, tail, size, trimTo);
    FittedSuffix(h, maxChars, tail, size, Evicted(h, maxChars, tail, size, trimTo));
    BoundedIs(h, maxChars, tail, size, trimTo);
  }

  lemma EvictsFew(h: seq<Message>, maxChars: int, tail: nat, size: Measure, trimTo: Option<int>)
    requires tail <= |h| && h != []
    ensures Evicted(h, maxChars, tail, size, trimTo) < |FittedUnits(h, maxChars, tail, size)|
  {
    CandidatesNonEmpty(h, tail);
    var fitted := FittedUnits(h, maxChars, tail, size);
    CutStops(fitted, size, maxChars);
    if trimTo.Some? { CutStops(fitted, size, trimTo.value); }
  }

  /** The history and the flag, in terms of the units kept. */
  lemma BoundedIs(h: seq<Message>, maxChars: int, tail: nat, size: Measure, trimTo: Option<int>)
    requires tail <= |h| && h != []
    ensures Evicted(h, maxChars, tail, size, trimTo) <= |FittedUnits(h, maxChars, tail, size)|
    ensures var r := Flat(FittedUnits(h, maxChars, tail, size)[Evicted(h, maxChars, tail, size, trimTo)..]);
      BoundedHistory(h, maxChars, tail, size, trimTo)
      == Ok(Bounded(r, (tail == 0 && Oversized(LastUnit(h), maxChars, size)) || |r| != |h|))
  {
    CandidatesNonEmpty(h, 0);
    LastCandidate(h);
  }

  lemma LastCandidate(h: seq<Message>)
    requires h != []
    ensures Candidates(h, 0) != [] && Candidates(h, 0)[|Candidates(h, 0)| - 1] == LastUnit(h)
  {
    UnitsFlat(h);
    CandidatesNonEmpty(h, 0);
  }

  /** Evicting a unit shortens the history. */
  lemma EvictedLength(us: seq<Unit>, k: nat)
    requires k < |us| && NonEmptyUnits(us)
    ensures |Flat(us[k..])| == |Flat(us)| <==> k == 0
  {
    assert us == us[..k] + us[k..];
    FlatConcat(us[..k], us[k..]);
    if k > 0 { assert us[..k][0] != []; }
  }

  lemma SuffixLengths(us: seq<Unit>, k: nat, newest: Unit)
    requires k < |us| && NonEmptyUnits(us) && |newest| == |us[|us| - 1]|
    ensures var r := Flat(us[k..|us| - 1]) + newest;
      && |r| == |Flat(us[k..])| && |r| <= |Flat(us)| && (|r| == |Flat(us)| <==> k == 0)
      && Flat(us)[|Flat(us)| - |r|..] == Flat(us[k..|us| - 1]) + us[|us| - 1]
  {
    FlatLast(us, k);
    EvictedLength(us, k);
    assert us == us[..k] + us[k..];
    FlatConcat(us[..k], us[k..]);
  }

  lemma SameBefore(a: seq<Message>, last: Unit, newest: Unit)
    requires SameRecords(last, newest)
    ensures SameRecords(a + last, a + newest)
  {
  }

  lemma SuffixFacts(us: seq<Unit>, k: nat, newest: Unit, h: seq<Message>, r: seq<Message>)
    requires k < |us| && NonEmptyUnits(us) && SameRecords(us[|us| - 1], newest)
    requires h == Flat(us) && r == Flat(us[k..|us| - 1]) + newest
    ensures |r| <= |h| && SameRecords(h[|h| - |r|..], r) && SameRecords(Flat(us[k..]), r)
    ensures |r| == |Flat(us[k..])| && (|r| == |h| <==> k == 0)
    ensures forall i :: 0 <= i < |r| - |newest| ==> r[i] == h[|h| - |r| + i]
    ensures newest == us[|us| - 1] ==> r == h[|h| - |r|..]
  {
    SuffixLengths(us, k, newest);
    FlatLast(us, k);
    SameBefore(Flat(us[k..|us| - 1]), us[|us| - 1], newest);
    VerbatimBefore(h, r, Flat(us[k..|us| - 1]), us[|us| - 1], newest);
  }

  lemma VerbatimBefore(h: seq<Message>, r: seq<Message>, a: seq<Message>, last: Unit, newest: Unit)
    requires |r| <= |h| && h[|h| - |r|..] == a + last && r == a + newest
    ensures forall i :: 0 <= i < |r| - |newest| ==> r[i] == h[|h| - |r| + i]
  {
    forall i | 0 <= i < |a| ensures r[i] == h[|h| - |r| + i] {
      assert h[|h| - |r|..][i] == h[|h| - |r| + i];
    }
  }

  /** Message by message: `r` is a suffix of `h` with the same records, verbatim but for its newest unit,
      verbatim throughout when a tail is protected, with that tail in it; unflagged, it is all of `h`. */
  ghost predicate IsTrimmed(h: seq<Message>, tail: nat, r: seq<Message>, changed: bool) {
    && tail <= |h| && |r| <= |h|
    && SameRecords(h[|h| - |r|..], r)
    && (forall i :: 0 <= i < |r| - |LastUnit(h)| ==> r[i] == h[|h| - |r| + i])
    && (tail > 0 ==> r == h[|h| - |r|..] && tail <= |r|)
    && (!changed ==> r == h)
  }

  lemma KeptIsTrimmed(h: seq<Message>, k: nat, tail: nat, newest: Unit, r: seq<Message>, changed: bool)
    requires tail <= |h| && k < |Units(h)| && SameRecords(LastUnit(h), newest)
    requires r == Flat(Units(h)[k..|Units(h)| - 1]) + newest
    requires tail > 0 || !changed ==> newest == LastUnit(h)
    requires tail > 0 ==> k <= TailAt(h, tail)
    requires !changed ==> k == 0
    ensures IsTrimmed(h, tail, r, changed)
  {
    UnitsFlat(h);
    var us := Units(h);
    SuffixFacts(us, k, newest, h, r);
    if tail > 0 { FlatSuffix(us, k, TailStart(us, tail)); }
  }

  lemma TrimmedIsSuffix(h: seq<Message>, maxChars: int, tail: nat, size: Measure, trimTo: Option<int>)
    requires tail <= |h|
    ensures var b := BoundedHistory(h, maxChars, tail, size, trimTo);
            b.Ok? && IsTrimmed(h, tail, b.value.history, b.value.changed)
  {
    if h != [] {
      TrimmingKeepsWholeUnits(h, maxChars, tail, size, trimTo);
      var b := BoundedHistory(h, maxChars, tail, size, trimTo).value;
      KeptIsTrimmed(h, Evicted(h, maxChars, tail, size, trimTo), tail, Newest(h, maxChars, tail, size), b.history,
          b.changed);
    }
  }

  /** A tail the history does not have is refused, and nothing else is. */
  lemma RefusedIffNoSuchTail(h: seq<Message>, maxChars: int, tail: int, size: Measure, trimTo: Option<int>)
    ensures BoundedHistory(h, maxChars, tail, size, trimTo).Err? <==> tail < 0 || tail > |h|
  {
    if 0 <= tail <= |h| { TrimmedIsSuffix(h, maxChars, tail, size, trimTo); }
  }

  /** Evicting never breaks pairing, for every measure, bound, protected tail and trim target, as long as no
      provider pair splits a call (`SuffixesAcceptedIff` says that this is exactly what it takes). */
  lemma TrimmingKeepsPairing(h: seq<Message>, maxChars: int, tail: nat, size: Measure, trimTo: Option<int>)
    requires tail <= |h| && Paired(h) && NoSplit(h)
    ensures Paired(BoundedHistory(h, maxChars, tail, size, trimTo).value.history)
  {
    if h == [] {
      EmptyStaysEmpty(maxChars, size, trimTo);
    } else {
      TrimmingKeepsWholeUnits(h, maxChars, tail, size, trimTo);
      KeepsIsPaired(h, maxChars, tail, size, Evicted(h, maxChars, tail, size, trimTo),
                    BoundedHistory(h, maxChars, tail, size, trimTo).value.history);
    }
  }

  lemma KeepsIsPaired(h: seq<Message>, maxChars: int, tail: nat, size: Measure, k: nat, r: seq<Message>)
    requires tail <= |h| && Keeps(h, maxChars, tail, size, k, r) && Paired(h) && NoSplit(h)
    ensures Paired(r)
  {
    var newest := KeepsNewest(h, maxChars, tail, size, k, r);
    KeptIsPaired(h, k, newest, r);
  }

  lemma KeepsNewest(h: seq<Message>, maxChars: int, tail: nat, size: Measure, k: nat, r: seq<Message>)
    returns (newest: Unit)
    requires tail <= |h| && Keeps(h, maxChars, tail, size, k, r)
    ensures k < |Units(h)| && r == Flat(Units(h)[k..|Units(h)| - 1]) + newest && SameRecords(LastUnit(h), newest)
  {
    newest := Newest(h, maxChars, tail, size);
  }

  lemma EmptyStaysEmpty(maxChars: int, size: Measure, trimTo: Option<int>)
    ensures BoundedHistory([], maxChars, 0, size, trimTo) == Ok(Bounded([], false))
  {
    CandidatesNonEmpty([], 0);
  }

  lemma KeptIsPaired(h: seq<Message>, k: nat, newest: Unit, r: seq<Message>)
    requires k < |Units(h)| && Paired(h) && NoSplit(h) && SameRecords(LastUnit(h), newest)
    requires r == Flat(Units(h)[k..|Units(h)| - 1]) + newest
    ensures Paired(r)
  {
    AcceptsIffPaired(h);
    SuffixesAcceptedIff(h);
    UnitsFlat(h);
    SuffixFacts(Units(h), k, newest, h, r);
    AcceptsSameRecords(Flat(Units(h)[k..]), r);
    AcceptsIffPaired(r);
  }

  function Length(u: Unit): nat {
    |u|
  }

  lemma {:induction false} TotalLength(gs: seq<Unit>)
    ensures Total(gs, Length) == |Flat(gs)|
  {
    if gs != [] { TotalLength(gs[1..]); }
  }

  /** Measured by its messages, a history is cut down to any of its units' suffixes. */
  lemma CutLength(us: seq<Unit>, k: nat)
    requires k < |us| && NonEmptyUnits(us)
    ensures Cut(us, Length, |Flat(us[k..])|) == k
  {
    TotalLength(us[k..]);
    if k > 0 {
      TotalLength(us[k - 1..]);
      assert us[k - 1..] == [us[k - 1]] + us[k..];
    }
    GreedyIsCut(us, Length, |Flat(us[k..])|, k);
  }

  lemma FittingLast(us: seq<Unit>, k: nat)
    requires k < |us| && NonEmptyUnits(us)
    ensures us[..|us| - 1] + [Shrink(us[|us| - 1], |Flat(us[k..])|, Length)] == us
  {
    FlatLast(us, k);
    var last := us[|us| - 1];
    assert !Oversized(last, |Flat(us[k..])|, Length);
  }

  lemma EvictsExactly(h: seq<Message>, k: nat)
    requires k < |Units(h)|
    ensures BoundedHistory(h, |Flat(Units(h)[k..])|, 0, Length, None).Ok?
    ensures BoundedHistory(h, |Flat(Units(h)[k..])|, 0, Length, None).value.history == Flat(Units(h)[k..])
  {
    UnitsFlat(h);
    var us := Units(h);
    var bound := |Flat(us[k..])|;
    CutLength(us, k);
    FittingLast(us, k);
    assert FittedUnits(h, bound, 0, Length) == us;
    BoundedIs(h, bound, 0, Length, None);
  }

  /** Whatever the measure, the bound, the tail and the trim target, the trimmed history is paired. */
  ghost predicate AlwaysPaired(h: seq<Message>) {
    forall maxChars: int, tail: nat, size: Measure, trimTo: Option<int> :: tail <= |h| ==>
      Paired(BoundedHistory(h, maxChars, tail, size, trimTo).value.history)
  }

  lemma NoSplitAlwaysPairs(h: seq<Message>)
    requires Paired(h) && NoSplit(h)
    ensures AlwaysPaired(h)
  {
    forall maxChars: int, tail: nat, size: Measure, trimTo: Option<int> | tail <= |h|
      ensures Paired(BoundedHistory(h, maxChars, tail, size, trimTo).value.history)
    {
      TrimmingKeepsPairing(h, maxChars, tail, size, trimTo);
    }
  }

  /** Some suffix of units is not paired. */
  lemma SplitSuffix(h: seq<Message>) returns (k: nat)
    requires Paired(h) && !NoSplit(h)
    ensures k < |Units(h)| && !Paired(Flat(Units(h)[k..]))
  {
    AcceptsIffPaired(h);
    SuffixesAcceptedIff(h);
    var us := Units(h);
    k :| 0 <= k <= |us| && !Accepts(Flat(us[k..]));
    AcceptsIffPaired(Flat(us[k..]));
    assert us[|us|..] == [] && Accepts([]);
  }

  lemma NotAlwaysPaired(h: seq<Message>, bound: int)
    requires !Paired(BoundedHistory(h, bound, 0, Length, None).value.history)
    ensures !AlwaysPaired(h)
  {
  }

  lemma SplitBreaks(h: seq<Message>)
    requires Paired(h) && !NoSplit(h)
    ensures !AlwaysPaired(h)
  {
    var k := SplitSuffix(h);
    EvictsExactly(h, k);
    NotAlwaysPaired(h, |Flat(Units(h)[k..])|);
  }

  /** Trimming never breaks pairing exactly when no provider pair splits a call. */
  lemma TrimmingKeepsPairingIff(h: seq<Message>)
    requires Paired(h)
    ensures AlwaysPaired(h) <==> NoSplit(h)
  {
    if NoSplit(h) { NoSplitAlwaysPairs(h); } else { SplitBreaks(h); }
  }

  /** A paired history that eviction does break: a provider message, a call taken in as its pair, its answer. */
  lemma SplitHistoryBreaks(provider: Message, call: Message, answer: Message)
    requires IsProvider(provider) && !IsHead(provider)
    requires IsHead(call) && |call.calls| == 1 && IsResult(answer) && answer.callId == Some(call.calls[0].id)
    ensures Paired([provider, call, answer])
    ensures !Paired(BoundedHistory([provider, call, answer], 1, 0, (u: Unit) => |u|, None).value.history)
  {
    var h := [provider, call, answer];
    assert h[1..] == [call, answer] && h[2..] == [answer] && h[1..][2..] == [];
    AcceptsStep(h);
    AcceptsStep(h[1..]);
    AcceptsIffPaired(h);
    assert h[..2] == [provider, call] && [answer][..1] == [answer] && [answer][1..] == [];
    assert Units([answer]) == [[answer]];
    assert Units(h) == [[provider, call], [answer]];
    var r := BoundedHistory(h, 1, 0, (u: Unit) => |u|, None).value.history;
    TrimmingKeepsWholeUnits(h, 1, 0, (u: Unit) => |u|, None);
    var us := Units(h);
    assert Cut(us, (u: Unit) => |u|, 1) == 1 by {
      assert us[1..] == [[answer]];
      assert Total(us, (u: Unit) => |u|) >= 2;
    }
    assert r == [answer];
    AcceptsStep(r);
    AcceptsIffPaired(r);
  }

  // ---------------------------------------------------------------------------
  // How far trimming cuts
  // ---------------------------------------------------------------------------

  /** The kept units are the longest suffix that is one unit or fits `maxChars`; when that evicts something
      and there is a lower trim target, they are the longest that is one unit or fits the target instead,
      which is never more than the first cut would keep. */
  lemma KeptIsLongest(h: seq<Message>, maxChars: int, tail: nat, size: Measure, trimTo: Option<int>)
    requires tail <= |h|
    ensures var fitted, k := FittedUnits(h, maxChars, tail, size), Evicted(h, maxChars, tail, size, trimTo);
            var first := Evicted(h, maxChars, tail, size, None);
            && k <= |fitted|
            && BoundedHistory(h, maxChars, tail, size, trimTo).value.history == Flat(fitted[k..])
            && LongestFit(fitted, size, maxChars, first)
            && first <= k
            && (if trimTo.Some? && trimTo.value < maxChars && first > 0
                then LongestFit(fitted, size, trimTo.value, k) else k == first)
  {
    var fitted := FittedUnits(h, maxChars, tail, size);
    CutIsLongestFit(fitted, size, maxChars);
    if trimTo.Some? && trimTo.value < maxChars {
      CutIsLongestFit(fitted, size, trimTo.value);
      CutMonotone(fitted, size, trimTo.value, maxChars);
    }
  }

  // ---------------------------------------------------------------------------
  // How often the prompt's prefix changes
  // ---------------------------------------------------------------------------

  /** A unit on its own that later messages cannot join. */
  ghost predicate WholeUnit(g: Unit) {
    && g != [] && Units(g) == [g] && !IsResult(g[0])
    && !(|g| == 1 && IsProvider(g[0]))
  }

  ghost predicate WholeUnits(gs: seq<Unit>) {
    forall i :: 0 <= i < |gs| ==> WholeUnit(gs[i])
  }

  lemma {:induction false} UnitsOfWhole(gs: seq<Unit>)
    requires WholeUnits(gs)
    ensures Units(Flat(gs)) == gs
  {
    if gs != [] {
      UnitsOfWhole(gs[1..]);
      WholeThenMore(gs[0], Flat(gs[1..]), gs[1..]);
    }
  }

  lemma WholeThenMore(g: Unit, more: seq<Message>, rest: seq<Unit>)
    requires WholeUnit(g) && more == Flat(rest) && WholeUnits(rest)
    ensures Units(g + more) == [g] + Units(more)
  {
    var h := g + more;
    assert g[..UnitLength(g)] == g;
    assert UnitLength(h) == |g| by {
      if rest != [] { assert more[0] == rest[0][0]; }
      if !ProviderPair(g) && IsHead(g[0]) { RunThenMore(g[1..], more); assert h[1..] == g[1..] + more; }
    }
    assert h[..|g|] == g && h[|g|..] == more;
  }

  lemma {:induction false} RunThenMore(run: seq<Message>, more: seq<Message>)
    requires ResultRun(run) == |run| && (more != [] ==> !IsResult(more[0]))
    ensures ResultRun(run + more) == |run|
  {
    if run == [] {
      assert run + more == more;
    } else {
      assert (run + more)[1..] == run[1..] + more;
      RunThenMore(run[1..], more);
    }
  }

  ghost predicate SmallUnits(gs: seq<Unit>, size: Measure, bound: int) {
    forall i :: 0 <= i < |gs| ==> size(gs[i]) <= bound
  }

  /** A caller that appends a batch of units, trims, and keeps what it is given, over and over; with it the
      number of times the flag was set: the requests whose prompt no longer starts as the one before. */
  ghost function Grow(h: seq<Message>, batches: seq<seq<Unit>>, maxChars: int, trimTo: int, size: Measure)
    : (seq<Message>, nat)
    decreases |batches|
  {
    if batches == [] then (h, 0)
    else
      var b := BoundedHistory(h + Flat(batches[0]), maxChars, 0, size, Some(trimTo)).value;
      var (final, cuts) := Grow(b.history, batches[1..], maxChars, trimTo, size);
      (final, cuts + if b.changed then 1 else 0)
  }

  ghost function Appended(batches: seq<seq<Unit>>, size: Measure): nat
    decreases |batches|
  {
    if batches == [] then 0 else Total(batches[0], size) + Appended(batches[1..], size)
  }

  ghost predicate GoodBatches(batches: seq<seq<Unit>>, size: Measure, trimTo: int) {
    forall i :: 0 <= i < |batches| ==> WholeUnits(batches[i]) && SmallUnits(batches[i], size, trimTo)
  }

  lemma GrownUnits(grown: seq<Unit>, maxChars: int, trimTo: nat, size: Measure)
    requires trimTo < maxChars && WholeUnits(grown) && SmallUnits(grown, size, trimTo)
    ensures NonEmptyUnits(grown) && Candidates(Flat(grown), 0) == grown
    ensures FittedUnits(Flat(grown), maxChars, 0, size) == grown && !NewestOversized(grown, maxChars, size)
  {
    UnitsOfWhole(grown);
    UnitsFlat(Flat(grown));
    if grown != [] {
      assert !Oversized(grown[|grown| - 1], maxChars, size);
      assert Fitted(grown, maxChars, size) == grown;
    }
  }

  /** One append and trim: either nothing goes, or more than `maxChars` is cut to at most `trimTo`. */
  lemma GrowStep(grown: seq<Unit>, maxChars: int, trimTo: nat, size: Measure)
    requires trimTo < maxChars && WholeUnits(grown) && SmallUnits(grown, size, trimTo)
    ensures var kept := grown[CutTo(grown, size, maxChars, Some(trimTo))..];
            && BoundedHistory(Flat(grown), maxChars, 0, size, Some(trimTo)) == Ok(Bounded(Flat(kept), kept != grown))
            && (kept != grown ==> Total(kept, size) <= trimTo && maxChars < Total(grown, size))
  {
    GrownUnits(grown, maxChars, trimTo, size);
    CutPays(grown, maxChars, trimTo, size);
    EvictedLengthFrom(grown, CutTo(grown, size, maxChars, Some(trimTo)));
  }

  lemma CutPays(grown: seq<Unit>, maxChars: int, trimTo: nat, size: Measure)
    requires trimTo < maxChars && SmallUnits(grown, size, trimTo)
    ensures var k := CutTo(grown, size, maxChars, Some(trimTo));
            && k <= |grown| && (grown != [] ==> k < |grown|)
            && (k > 0 ==> Total(grown[k..], size) <= trimTo && maxChars < Total(grown, size))
  {
    var k := CutTo(grown, size, maxChars, Some(trimTo));
    CutStops(grown, size, maxChars);
    CutStops(grown, size, trimTo);
    if k > 0 {
      CutMonotone(grown, size, trimTo, maxChars);
      var kept := grown[k..];
      if |kept| == 1 { assert Total(kept, size) == size(kept[0]) + Total(kept[1..], size); }
    }
  }

  lemma EvictedLengthFrom(us: seq<Unit>, k: nat)
    requires k <= |us| && (us != [] ==> k < |us|) && NonEmptyUnits(us)
    ensures |Flat(us[k..])| == |Flat(us)| <==> k == 0
  {
    if us != [] { EvictedLength(us, k); }
  }

  /** The same run seen on units alone: how often something was cut. */
  ghost function CutsOf(us: seq<Unit>, batches: seq<seq<Unit>>, maxChars: int, trimTo: nat, size: Measure): nat
    requires trimTo < maxChars
    decreases |batches|
  {
    if batches == [] then 0
    else
      var grown := us + batches[0];
      var k := CutTo(grown, size, maxChars, Some(trimTo));
      CutStops(grown, size, maxChars);
      CutStops(grown, size, trimTo);
      CutsOf(grown[k..], batches[1..], maxChars, trimTo, size) + if k > 0 then 1 else 0
  }

  lemma {:induction false} CutsOfGrow(us: seq<Unit>, batches: seq<seq<Unit>>, maxChars: int, trimTo: nat, size: Measure)
    requires trimTo < maxChars
    requires WholeUnits(us) && SmallUnits(us, size, trimTo) && GoodBatches(batches, size, trimTo)
    ensures Grow(Flat(us), batches, maxChars, trimTo, size).1 == CutsOf(us, batches, maxChars, trimTo, size)
    decreases |batches|
  {
    if batches != [] {
      assert WholeUnits(batches[0]) && SmallUnits(batches[0], size, trimTo);
      var grown := us + batches[0];
      CutPays(grown, maxChars, trimTo, size);
      CutsOfGrow(grown[CutTo(grown, size, maxChars, Some(trimTo))..], batches[1..], maxChars, trimTo, size);
      FlatConcat(us, batches[0]);
      GrowStep(grown, maxChars, trimTo, size);
    }
  }

  lemma {:induction false} CutsArePaid(us: seq<Unit>, batches: seq<seq<Unit>>, maxChars: int, trimTo: nat,
                                       size: Measure)
    requires trimTo < maxChars
    requires SmallUnits(us, size, trimTo) && GoodBatches(batches, size, trimTo)
    ensures CutsOf(us, batches, maxChars, trimTo, size) * (maxChars - trimTo)
         <= Total(us, size) + Appended(batches, size)
    decreases |batches|
  {
    if batches != [] {
      assert SmallUnits(batches[0], size, trimTo);
      var grown := us + batches[0];
      var kept := grown[CutTo(grown, size, maxChars, Some(trimTo))..];
      CutPays(grown, maxChars, trimTo, size);
      CutsArePaid(kept, batches[1..], maxChars, trimTo, size);
      TotalConcat(us, batches[0], size);
      Pay(CutsOf(kept, batches[1..], maxChars, trimTo, size), maxChars - trimTo);
    }
  }

  lemma Pay(cuts: nat, span: int)
    ensures (cuts + 1) * span == cuts * span + span
  {
  }

  /** Cuts are paid for by growth: however a history grows from nothing by whole units no larger than
      `trimTo`, in batches of any size, the cuts over the whole run times `maxChars - trimTo` never exceed the
      total size appended. */
  lemma CutsAreAmortised(batches: seq<seq<Unit>>, maxChars: int, trimTo: nat, size: Measure)
    requires trimTo < maxChars && GoodBatches(batches, size, trimTo)
    ensures Grow([], batches, maxChars, trimTo, size).1 * (maxChars - trimTo) <= Appended(batches, size)
  {
    CutsOfGrow([], batches, maxChars, trimTo, size);
    CutsArePaid([], batches, maxChars, trimTo, size);
  }
}
