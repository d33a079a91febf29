/**
 The fairness measurement over an ordering log (scripts/countInstances.js):
 for the two competing instance pairs {1, 3} and {2, 4}, count in how many
 logged rounds each member of the pair came first.

 The log is an array of entries as JSON.parse leaves them. The loop
 `CountRelativeOrderPairs` is proved equal to the recursive fold `Tally`, and
 `Tally` is characterised by lemmas: it fails exactly at the first entry whose
 processing throws, and otherwise each counter is the number of rounds that
 voted that way.
 */
module RelativeOrder {

  /**
   The value of an item's `instanceID` property. An integer, or anything else
   (absent, a string, a fractional number, an object); the latter is never
   strictly equal to 1, 2, 3 or 4.
   */
  datatype InstanceId = IntId(n: int) | OtherId

  /**
   An element of an entry's `instances` array: `null` (reading its
   `instanceID` throws a TypeError), or any other value.
   */
  datatype Item = NullItem | Present(instanceID: InstanceId)

  /**
   One logged round: `null` (reading `instances` throws a TypeError), a value
   whose `instances` property is missing or not an array, or one whose
   `instances` is an array.
   */
  datatype Entry = NullEntry | NoInstances | Instances(items: seq<Item>)

  /** The four counters of the result table. */
  datatype PairCounts = PairCounts(
    oneBeforeThree: nat, threeBeforeOne: nat,
    twoBeforeFour: nat, fourBeforeTwo: nat)

  const Zero := PairCounts(0, 0, 0, 0)

  /** What a call produces: the counters, or the TypeError thrown while processing an entry. */
  datatype Outcome = Counted(counts: PairCounts) | TypeError(entryIndex: nat)

  /** The table exactly as the function returns it, keyed by pair and then by order. */
  function Table(c: PairCounts): (t: map<string, map<string, nat>>)
    ensures t.Keys == {"1_vs_3", "2_vs_4"}
    ensures t["1_vs_3"].Keys == {"1_before_3", "3_before_1"}
    ensures t["2_vs_4"].Keys == {"2_before_4", "4_before_2"}
  {
    map["1_vs_3" := map["1_before_3" := c.oneBeforeThree, "3_before_1" := c.threeBeforeOne],
        "2_vs_4" := map["2_before_4" := c.twoBeforeFour, "4_before_2" := c.fourBeforeTwo]]
  }

  // ---------------------------------------------------------------------------
  // One entry
  // ---------------------------------------------------------------------------

  /** `item.instanceID === id` for a non-null item. */
  predicate HasId(it: Item, id: int) {
    it.Present? && it.instanceID == IntId(id)
  }

  predicate InPair(it: Item, a: int, b: int) {
    HasId(it, a) || HasId(it, b)
  }

  /** `items.filter(item => item.instanceID === a || item.instanceID === b)`. */
  function PairFilter(items: seq<Item>, a: int, b: int): (r: seq<Item>)
    ensures |r| <= |items|
    ensures forall k :: 0 <= k < |r| ==> InPair(r[k], a, b) && r[k] in items
    decreases |items|
  {
    if items == [] then []
    else (if InPair(items[0], a, b) then [items[0]] else []) + PairFilter(items[1..], a, b)
  }

  /** Processing the entry throws: `null.instances`, or `null.instanceID` inside a filter. */
  predicate Throws(e: Entry) {
    e.NullEntry? || (e.Instances? && NullItem in e.items)
  }

  /** How one round decides the pair (a, b). */
  datatype Verdict = NotCounted | FirstWins | SecondWins

  /**
   A round counts for the pair when its filtered list has exactly two items;
   the pair's first member wins when the first of them has its ID.
   */
  function PairVerdict(e: Entry, a: int, b: int): Verdict {
    if !e.Instances? then NotCounted
    else
      var f := PairFilter(e.items, a, b);
      if |f| != 2 then NotCounted
      else if HasId(f[0], a) then FirstWins
      else SecondWins
  }

  function Bump(n: nat, v: Verdict, w: Verdict): nat {
    if v == w then n + 1 else n
  }

  /** The counters after one entry that does not throw. */
  function Step(c: PairCounts, e: Entry): PairCounts
    requires !Throws(e)
  {
    var v13 := PairVerdict(e, 1, 3);
    var v24 := PairVerdict(e, 2, 4);
    PairCounts(
      Bump(c.oneBeforeThree, v13, FirstWins), Bump(c.threeBeforeOne, v13, SecondWins),
      Bump(c.twoBeforeFour, v24, FirstWins), Bump(c.fourBeforeTwo, v24, SecondWins))
  }

  // ---------------------------------------------------------------------------
  // The whole log: the fold, and an independent count
  // ---------------------------------------------------------------------------

  /** The result of processing the entries in order, as `forEach` does. */
  function Tally(data: seq<Entry>): Outcome
    decreases |data|
  {
    if data == [] then Counted(Zero)
    else
      var prev := Tally(data[..|data| - 1]);
      var last := data[|data| - 1];
      if prev.TypeError? then prev
      else if Throws(last) then TypeError(|data| - 1)
      else Counted(Step(prev.counts, last))
  }

  predicate NoneThrow(data: seq<Entry>) {
    forall k :: 0 <= k < |data| ==> !Throws(data[k])
  }

  /** The number of entries whose verdict on (a, b) is v. */
  function CountVerdict(data: seq<Entry>, a: int, b: int, v: Verdict): (n: nat)
    ensures n <= |data|
    decreases |data|
  {
    if data == [] then 0
    else (if PairVerdict(data[0], a, b) == v then 1 else 0) + CountVerdict(data[1..], a, b, v)
  }

  /** The counters an error-free log should produce, read off the verdicts. */
  function ExpectedCounts(data: seq<Entry>): PairCounts {
    PairCounts(
      CountVerdict(data, 1, 3, FirstWins), CountVerdict(data, 1, 3, SecondWins),
      CountVerdict(data, 2, 4, FirstWins), CountVerdict(data, 2, 4, SecondWins))
  }

  /** The number of entries with an `instances` array holding exactly two items of the pair. */
  function CountPaired(data: seq<Entry>, a: int, b: int): (n: nat)
    ensures n <= |data|
    decreases |data|
  {
    if data == [] then 0
    else
      var e := data[0];
      (if e.Instances? && |PairFilter(e.items, a, b)| == 2 then 1 else 0) + CountPaired(data[1..], a, b)
  }

  // ---------------------------------------------------------------------------
  // The loop
  // ---------------------------------------------------------------------------

  /**
   countRelativeOrderPairs: walks the log once, skipping entries without an
   `instances` array and bumping at most one counter of each pair per entry.
   The log is only read.
   */
  method CountRelativeOrderPairs(data: array<Entry>) returns (r: Outcome)
    ensures r == Tally(data[..])
  {
    var pairCounts := Zero;
    var i := 0;
    while i < data.Length
      invariant 0 <= i <= data.Length
      invariant Tally(data[..i]) == Counted(pairCounts)
    {
      var entry := data[i];
      assert data[..i + 1][..i] == data[..i];
      if entry.NullEntry? || (entry.Instances? && NullItem in entry.items) {
        TallyErrorPersists(data[..], i + 1);
        return TypeError(i);
      }
      if entry.Instances? {
        var instances1and3 := PairFilter(entry.items, 1, 3);
        if |instances1and3| == 2 {
          if HasId(instances1and3[0], 1) {
            pairCounts := pairCounts.(oneBeforeThree := pairCounts.oneBeforeThree + 1);
          } else {
            pairCounts := pairCounts.(threeBeforeOne := pairCounts.threeBeforeOne + 1);
          }
        }
        var instances2and4 := PairFilter(entry.items, 2, 4);
        if |instances2and4| == 2 {
          if HasId(instances2and4[0], 2) {
            pairCounts := pairCounts.(twoBeforeFour := pairCounts.twoBeforeFour + 1);
          } else {
            pairCounts := pairCounts.(fourBeforeTwo := pairCounts.fourBeforeTwo + 1);
          }
        }
      }
      i := i + 1;
    }
    assert data[..] == data[..data.Length];
    return Counted(pairCounts);
  }

  // ---------------------------------------------------------------------------
  // Lemmas
  // ---------------------------------------------------------------------------

  /** Once an entry has thrown, later entries cannot change the outcome. */
  lemma {:induction false} TallyErrorPersists(data: seq<Entry>, n: nat)
    requires n <= |data|
    requires Tally(data[..n]).TypeError?
    ensures Tally(data) == Tally(data[..n])
    decreases |data|
  {
    if n < |data| {
      var init := data[..|data| - 1];
      assert init[..n] == data[..n];
      TallyErrorPersists(init, n);
    } else {
      assert data[..n] == data;
    }
  }

  /** The call fails exactly when some entry throws, and then at the first such entry. */
  lemma {:induction false} TallyFailsAtFirstThrow(data: seq<Entry>)
    ensures Tally(data).TypeError? <==> !NoneThrow(data)
    ensures Tally(data).TypeError? ==>
      var k := Tally(data).entryIndex;
      k < |data| && Throws(data[k]) && NoneThrow(data[..k])
    decreases |data|
  {
    if data != [] {
      var init := data[..|data| - 1];
      TallyFailsAtFirstThrow(init);
      assert forall k :: 0 <= k < |init| ==> init[k] == data[k];
      if Tally(init).TypeError? {
        var k := Tally(init).entryIndex;
        assert init[..k] == data[..k];
      } else {
        assert data[..|data| - 1] == init;
      }
    }
  }

  lemma {:induction false} CountVerdictConcat(s: seq<Entry>, t: seq<Entry>, a: int, b: int, v: Verdict)
    ensures CountVerdict(s + t, a, b, v) == CountVerdict(s, a, b, v) + CountVerdict(t, a, b, v)
    decreases |s|
  {
    if s == [] {
      assert s + t == t;
    } else {
      assert (s + t)[1..] == s[1..] + t;
      CountVerdictConcat(s[1..], t, a, b, v);
    }
  }

  /**
   On a log where nothing throws, each counter is the number of rounds whose
   verdict on its pair is the counter's order.
   */
  lemma {:induction false} TallyCountsVerdicts(data: seq<Entry>)
    requires NoneThrow(data)
    ensures Tally(data) == Counted(ExpectedCounts(data))
    decreases |data|
  {
    if data != [] {
      var init := data[..|data| - 1];
      var last := data[|data| - 1];
      assert data == init + [last];
      TallyCountsVerdicts(init);
      CountVerdictConcat(init, [last], 1, 3, FirstWins);
      CountVerdictConcat(init, [last], 1, 3, SecondWins);
      CountVerdictConcat(init, [last], 2, 4, FirstWins);
      CountVerdictConcat(init, [last], 2, 4, SecondWins);
    }
  }

  lemma {:induction false} PairedSplitsIntoVerdicts(data: seq<Entry>, a: int, b: int)
    ensures CountVerdict(data, a, b, FirstWins) + CountVerdict(data, a, b, SecondWins)
         == CountPaired(data, a, b)
    decreases |data|
  {
    if data != [] {
      PairedSplitsIntoVerdicts(data[1..], a, b);
    }
  }

  /**
   Each pair's two counters add up to the number of rounds with an `instances`
   array holding exactly two items of the pair, so never more than the rounds.
   */
  lemma PairTotalsCountPairedRounds(data: seq<Entry>, c: PairCounts)
    requires Tally(data) == Counted(c)
    ensures c.oneBeforeThree + c.threeBeforeOne == CountPaired(data, 1, 3) <= |data|
    ensures c.twoBeforeFour + c.fourBeforeTwo == CountPaired(data, 2, 4) <= |data|
  {
    TallyFailsAtFirstThrow(data);
    TallyCountsVerdicts(data);
    PairedSplitsIntoVerdicts(data, 1, 3);
    PairedSplitsIntoVerdicts(data, 2, 4);
  }

  /**
   The per-entry rule: each pair's total grows by one exactly when the entry
   has an `instances` array with exactly two items of the pair, and the
   "first before second" counter is the one that grows exactly when the first
   of those items carries the pair's first ID.
   */
  lemma StepRule(c: PairCounts, e: Entry)
    requires !Throws(e)
    ensures var c' := Step(c, e);
      var f13 := if e.Instances? then PairFilter(e.items, 1, 3) else [];
      var f24 := if e.Instances? then PairFilter(e.items, 2, 4) else [];
      && c'.oneBeforeThree + c'.threeBeforeOne
           == c.oneBeforeThree + c.threeBeforeOne + (if e.Instances? && |f13| == 2 then 1 else 0)
      && (c'.oneBeforeThree == c.oneBeforeThree + 1 <==> e.Instances? && |f13| == 2 && HasId(f13[0], 1))
      && (c'.threeBeforeOne == c.threeBeforeOne + 1 <==> e.Instances? && |f13| == 2 && HasId(f13[0], 3))
      && c'.twoBeforeFour + c'.fourBeforeTwo
           == c.twoBeforeFour + c.fourBeforeTwo + (if e.Instances? && |f24| == 2 then 1 else 0)
      && (c'.twoBeforeFour == c.twoBeforeFour + 1 <==> e.Instances? && |f24| == 2 && HasId(f24[0], 2))
      && (c'.fourBeforeTwo == c.fourBeforeTwo + 1 <==> e.Instances? && |f24| == 2 && HasId(f24[0], 4))
  {
  }

  /** An entry without an `instances` array, wherever it sits, changes no counter. */
  lemma SkippedEntryChangesNothing(xs: seq<Entry>, ys: seq<Entry>, c: PairCounts)
    requires Tally(xs + ys) == Counted(c)
    ensures Tally(xs + [NoInstances] + ys) == Counted(c)
  {
    var with := xs + [NoInstances] + ys;
    TallyFailsAtFirstThrow(xs + ys);
    TallyCountsVerdicts(xs + ys);
    assert NoneThrow(with) by {
      forall k | 0 <= k < |with|
        ensures !Throws(with[k])
      {
        if k > |xs| {
          assert with[k] == (xs + ys)[k - 1];
        } else if k < |xs| {
          assert with[k] == (xs + ys)[k];
        }
      }
    }
    TallyCountsVerdicts(with);
    forall a: int, b: int, v: Verdict | v != NotCounted
      ensures CountVerdict(with, a, b, v) == CountVerdict(xs + ys, a, b, v)
    {
      CountVerdictConcat(xs + [NoInstances], ys, a, b, v);
      CountVerdictConcat(xs, [NoInstances], a, b, v);
      CountVerdictConcat(xs, ys, a, b, v);
    }
  }

  lemma {:induction false} PairFilterConcat(s: seq<Item>, t: seq<Item>, a: int, b: int)
    ensures PairFilter(s + t, a, b) == PairFilter(s, a, b) + PairFilter(t, a, b)
    decreases |s|
  {
    if s == [] {
      assert s + t == t;
    } else {
      assert (s + t)[1..] == s[1..] + t;
      PairFilterConcat(s[1..], t, a, b);
    }
  }

  /**
   A non-null item outside the pair (another ID, or no integer ID) does not
   change the pair's verdict, wherever it is inserted; in particular items of
   the other pair never affect this pair's counters.
   */
  lemma ItemOutsidePairKeepsVerdict(xs: seq<Item>, it: Item, ys: seq<Item>, a: int, b: int)
    requires it.Present? && !InPair(it, a, b)
    ensures PairFilter(xs + [it] + ys, a, b) == PairFilter(xs + ys, a, b)
    ensures PairVerdict(Instances(xs + [it] + ys), a, b) == PairVerdict(Instances(xs + ys), a, b)
  {
    PairFilterConcat(xs + [it], ys, a, b);
    PairFilterConcat(xs, [it], a, b);
    PairFilterConcat(xs, ys, a, b);
    assert PairFilter([it], a, b) == [];
  }

  /** The positions of the array that hold an item of the pair. */
  function PairPositions(items: seq<Item>, a: int, b: int): set<nat> {
    set k: nat | k < |items| && InPair(items[k], a, b)
  }

  /**
   The filter keeps exactly the items of the pair: every one of them is in the
   result, the result holds nothing else, and it has one element per position
   holding a pair item (so a length of 2 means exactly two such items).
   Together with PairFilterConcat, which says the filter keeps array order,
   this pins the result down.
   */
  lemma PairFilterKeepsExactlyPairItems(items: seq<Item>, a: int, b: int)
    ensures forall k :: 0 <= k < |items| && InPair(items[k], a, b) ==> items[k] in PairFilter(items, a, b)
    ensures forall it :: it in PairFilter(items, a, b) ==> it in items && InPair(it, a, b)
    ensures |PairFilter(items, a, b)| == |PairPositions(items, a, b)|
  {
    PairFilterKeepsEveryPairItem(items, a, b);
    PairFilterLengthCountsPositions(items, a, b);
  }

  lemma {:induction false} PairFilterKeepsEveryPairItem(items: seq<Item>, a: int, b: int)
    ensures forall k :: 0 <= k < |items| && InPair(items[k], a, b) ==> items[k] in PairFilter(items, a, b)
    decreases |items|
  {
    if items != [] {
      PairFilterKeepsEveryPairItem(items[1..], a, b);
      forall k | 0 <= k < |items| && InPair(items[k], a, b)
        ensures items[k] in PairFilter(items, a, b)
      {
        if k > 0 {
          assert items[k] == items[1..][k - 1];
        }
      }
    }
  }

  lemma {:induction false} PairFilterLengthCountsPositions(items: seq<Item>, a: int, b: int)
    ensures |PairFilter(items, a, b)| == |PairPositions(items, a, b)|
    decreases |items|
  {
    if items != [] {
      var n := |items| - 1;
      var front := items[..n];
      PairFilterLengthCountsPositions(front, a, b);
      assert front + [items[n]] == items;
      PairFilterConcat(front, [items[n]], a, b);
      var last: set<nat> := if InPair(items[n], a, b) then {n} else {};
      assert |PairFilter([items[n]], a, b)| == |last|;
      assert PairPositions(items, a, b) == PairPositions(front, a, b) + last;
      assert n !in PairPositions(front, a, b);
    }
  }

  /** The head of the filtered list is the first item of the pair in array order. */
  lemma {:induction false} FilterHeadIsFirstMatch(items: seq<Item>, a: int, b: int)
    requires PairFilter(items, a, b) != []
    ensures exists j :: (0 <= j < |items| && items[j] == PairFilter(items, a, b)[0] &&
                         InPair(items[j], a, b) && forall k :: 0 <= k < j ==> !InPair(items[k], a, b))
    decreases |items|
  {
    if !InPair(items[0], a, b) {
      FilterHeadIsFirstMatch(items[1..], a, b);
      var j :| 0 <= j < |items[1..]| && items[1..][j] == PairFilter(items[1..], a, b)[0]
        && InPair(items[1..][j], a, b) && forall k :: 0 <= k < j ==> !InPair(items[1..][k], a, b);
      assert items[j + 1] == items[1..][j];
    } else {
      assert items[0] == PairFilter(items, a, b)[0];
    }
  }

  /**
   The length test does not check that both members are present: a round
   whose pair items are exactly two items with ID a counts as a first-member
   win, although b does not occur in it.
   */
  lemma TwoFirstMemberItemsCountAsFirstWins(items: seq<Item>, a: int, b: int)
    requires |PairPositions(items, a, b)| == 2
    requires forall k :: 0 <= k < |items| && InPair(items[k], a, b) ==> HasId(items[k], a)
    ensures PairVerdict(Instances(items), a, b) == FirstWins
  {
    PairFilterKeepsExactlyPairItems(items, a, b);
    var f := PairFilter(items, a, b);
    assert f[0] in items;
    var k :| 0 <= k < |items| && items[k] == f[0];
  }

  /**
   The code checks only that the filtered list has two items, so a round with
   instance 1 twice and no instance 3 counts as "1 before 3".
   */
  lemma DuplicateFirstMemberCountsAsFirstBefore()
    ensures Tally([Instances([Present(IntId(1)), Present(IntId(1))])]) == Counted(PairCounts(1, 0, 0, 0))
  {
    var e := Instances([Present(IntId(1)), Present(IntId(1))]);
    assert PairFilter(e.items, 1, 3) == e.items;
    assert PairFilter(e.items, 2, 4) == [];
    assert [e][..0] == [];
  }

  /** The table starts with both pairs and all four counters at zero. */
  lemma EmptyLogGivesZeroTable()
    ensures Tally([]) == Counted(Zero)
    ensures var t := Table(Zero);
      t["1_vs_3"]["1_before_3"] == 0 && t["1_vs_3"]["3_before_1"] == 0 &&
      t["2_vs_4"]["2_before_4"] == 0 && t["2_vs_4"]["4_before_2"] == 0
  {
  }
}
