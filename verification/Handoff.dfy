/** The hinted-handoff store (Cluster/handoff/handoff.go): per-target hint lists under a per-target cap
    and one global data budget kept as a running total. */
module Handoff {

  type Addr = string

  datatype Hint = Hint(key: string, target: Addr, dataSize: nat, createdAt: int, attempts: nat)

  type Hints = map<Addr, seq<Hint>>

  function Of(m: Hints, t: Addr): seq<Hint> {
    if t in m then m[t] else []
  }

  function Sum(hs: seq<Hint>): nat {
    if hs == [] then 0 else Sum(hs[..|hs| - 1]) + hs[|hs| - 1].dataSize
  }

  ghost function SumOver(m: Hints, targets: set<Addr>): nat {
    if targets == {} then 0
    else
      var t :| t in targets;
      Sum(Of(m, t)) + SumOver(m, targets - {t})
  }

  /** The data sizes of all stored hints. */
  ghost function SumAll(m: Hints): nat {
    SumOver(m, m.Keys)
  }

  lemma {:induction false} SumSplit(m: Hints, targets: set<Addr>, t: Addr)
    requires t in targets
    ensures SumOver(m, targets) == Sum(Of(m, t)) + SumOver(m, targets - {t})
    decreases |targets|
  {
    var u :| u in targets && SumOver(m, targets) == Sum(Of(m, u)) + SumOver(m, targets - {u});
    if u != t {
      SumSplit(m, targets - {u}, t);
      SumSplit(m, targets - {t}, u);
      assert targets - {u} - {t} == targets - {t} - {u};
    }
  }

  lemma {:induction false} SumSame(m: Hints, m': Hints, targets: set<Addr>)
    requires forall t :: t in targets ==> Of(m, t) == Of(m', t)
    ensures SumOver(m, targets) == SumOver(m', targets)
    decreases |targets|
  {
    if targets != {} {
      var t :| t in targets;
      SumSplit(m, targets, t);
      SumSplit(m', targets, t);
      SumSame(m, m', targets - {t});
    }
  }

  /** Replacing one target's list changes the sum by the difference of that list's sums. */
  lemma SumUpdate(m: Hints, t: Addr, hs: seq<Hint>)
    ensures SumAll(m[t := hs]) == SumAll(m) - Sum(Of(m, t)) + Sum(hs)
    ensures Sum(Of(m, t)) <= SumAll(m)
  {
    var m' := m[t := hs];
    SumSplit(m', m'.Keys, t);
    assert m'.Keys - {t} == m.Keys - {t};
    SumSame(m, m', m.Keys - {t});
    if t in m {
      SumSplit(m, m.Keys, t);
    } else {
      assert m.Keys - {t} == m.Keys;
    }
  }

  lemma SumAppend(hs: seq<Hint>, h: Hint)
    ensures Sum(hs + [h]) == Sum(hs) + h.dataSize
  {
    assert (hs + [h])[..|hs|] == hs;
  }

  lemma {:induction false} SumTail(hs: seq<Hint>)
    requires hs != []
    ensures Sum(hs) == hs[0].dataSize + Sum(hs[1..])
  {
    if |hs| > 1 {
      SumTail(hs[..|hs| - 1]);
      assert hs[..|hs| - 1][1..] == hs[1..][..|hs| - 2];
    }
  }

  lemma {:induction false} SumReplace(hs: seq<Hint>, i: nat, h: Hint)
    requires i < |hs|
    ensures Sum(hs[i := h]) == Sum(hs) - hs[i].dataSize + h.dataSize
  {
    var n := |hs| - 1;
    if i < n {
      SumReplace(hs[..n], i, h);
      assert hs[i := h][..n] == hs[..n][i := h];
    } else {
      assert hs[i := h][..n] == hs[..n];
    }
  }

  // ---------------------------------------------------------------- what each call does to one list

  /** Adding evicts the first hint of a full list. */
  function Added(hs: seq<Hint>, h: Hint, maxHints: nat): seq<Hint>
    requires maxHints > 0
  {
    (if |hs| >= maxHints then hs[1..] else hs) + [h]
  }

  /** What a removal keeps: every hint with another key, or every hint younger than a cutoff. */
  datatype Rule = OtherThan(key: string) | YoungerThan(cutoff: int)

  predicate Keeps(rule: Rule, h: Hint) {
    match rule
    case OtherThan(key) => h.key != key
    case YoungerThan(cutoff) => h.createdAt > cutoff
  }

  function Filtered(hs: seq<Hint>, rule: Rule): seq<Hint> {
    if hs == [] then []
    else
      var r := Filtered(hs[..|hs| - 1], rule);
      if Keeps(rule, hs[|hs| - 1]) then r + [hs[|hs| - 1]] else r
  }

  lemma FilteredStep(hs: seq<Hint>, i: nat, rule: Rule)
    requires i < |hs|
    ensures Filtered(hs[..i + 1], rule) == Filtered(hs[..i], rule) + if Keeps(rule, hs[i]) then [hs[i]] else []
    ensures Sum(hs[..i + 1]) == Sum(hs[..i]) + hs[i].dataSize
  {
    assert hs[..i + 1][..i] == hs[..i];
  }

  lemma {:induction false} FilteredSmaller(hs: seq<Hint>, rule: Rule)
    ensures |Filtered(hs, rule)| <= |hs| && Sum(Filtered(hs, rule)) <= Sum(hs)
    ensures |Filtered(hs, rule)| == |hs| ==> Filtered(hs, rule) == hs
  {
    if hs != [] {
      var front := hs[..|hs| - 1];
      FilteredSmaller(front, rule);
      SumAppend(Filtered(front, rule), hs[|hs| - 1]);
    }
  }

  /** A removal leaves exactly the kept hints. */
  lemma {:induction false} FilteredMembers(hs: seq<Hint>, rule: Rule)
    ensures forall h :: h in Filtered(hs, rule) <==> h in hs && Keeps(rule, h)
  {
    if hs != [] {
      var front := hs[..|hs| - 1];
      FilteredMembers(front, rule);
      assert hs == front + [hs[|hs| - 1]];
    }
  }

  /** `r` is what stands in `hs` at the increasing positions `at`. */
  ghost predicate StandsAt(hs: seq<Hint>, r: seq<Hint>, at: seq<nat>) {
    && |at| == |r|
    && (forall i, j :: 0 <= i < j < |at| ==> at[i] < at[j])
    && (forall i :: 0 <= i < |at| ==> at[i] < |hs| && r[i] == hs[at[i]])
  }

  lemma StandsLonger(hs: seq<Hint>, h: Hint, r: seq<Hint>, at: seq<nat>)
    requires StandsAt(hs, r, at)
    ensures StandsAt(hs + [h], r, at) && StandsAt(hs + [h], r + [h], at + [|hs|])
  {
  }

  lemma {:induction false} FilteredPositions(hs: seq<Hint>, rule: Rule) returns (at: seq<nat>)
    ensures StandsAt(hs, Filtered(hs, rule), at)
    ensures forall k: nat :: k in at <==> k < |hs| && Keeps(rule, hs[k])
  {
    if hs == [] {
      at := [];
    } else {
      var front, last := hs[..|hs| - 1], hs[|hs| - 1];
      var before := FilteredPositions(front, rule);
      assert hs == front + [last];
      StandsLonger(front, last, Filtered(front, rule), before);
      at := if Keeps(rule, last) then before + [|front|] else before;
      forall k: nat ensures k in at <==> k < |hs| && Keeps(rule, hs[k]) {
        assert k in at <==> k in before || (Keeps(rule, last) && k == |front|);
        if k < |front| {
          assert hs[k] == front[k];
        }
      }
    }
  }

  /** A removal keeps a list in order of creation. */
  lemma {:induction false} FilteredChronological(hs: seq<Hint>, rule: Rule)
    requires Chronological(hs)
    ensures Chronological(Filtered(hs, rule))
  {
    if hs != [] {
      var front := hs[..|hs| - 1];
      var r := Filtered(front, rule);
      FilteredChronological(front, rule);
      FilteredMembers(front, rule);
      forall i | 0 <= i < |r| ensures r[i].createdAt <= hs[|hs| - 1].createdAt {
        assert r[i] in front;
      }
    }
  }

  ghost predicate Chronological(hs: seq<Hint>) {
    forall i, j :: 0 <= i < j < |hs| ==> hs[i].createdAt <= hs[j].createdAt
  }

  lemma AppendChronological(hs: seq<Hint>, h: Hint)
    requires Chronological(hs) && forall i :: 0 <= i < |hs| ==> hs[i].createdAt <= h.createdAt
    ensures Chronological(hs + [h])
  {
  }

  lemma TailChronological(hs: seq<Hint>)
    requires Chronological(hs) && hs != []
    ensures Chronological(hs[1..]) && forall i :: 0 <= i < |hs| - 1 ==> hs[0].createdAt <= hs[1..][i].createdAt
  {
  }

  /** A list in order of creation stays so when a hint no older than its hints is added, and the hint
      a full list loses is then its oldest. */
  lemma EvictionDropsOldest(hs: seq<Hint>, h: Hint, maxHints: nat)
    requires maxHints > 0 && Chronological(hs) && forall i :: 0 <= i < |hs| ==> hs[i].createdAt <= h.createdAt
    ensures Chronological(Added(hs, h, maxHints))
    ensures |hs| >= maxHints ==>
      && hs == [hs[0]] + hs[1..] && Added(hs, h, maxHints) == hs[1..] + [h]
      && forall i :: 0 <= i < |hs| ==> hs[0].createdAt <= Added(hs, h, maxHints)[i].createdAt
  {
    if |hs| >= maxHints {
      TailChronological(hs);
      AppendChronological(hs[1..], h);
    } else {
      AppendChronological(hs, h);
    }
  }

  /** The position of the first hint with the key, or the length of the list. */
  function FirstWith(hs: seq<Hint>, key: string): (i: nat)
    ensures i <= |hs| && (i < |hs| ==> hs[i].key == key)
    ensures forall j :: 0 <= j < i ==> hs[j].key != key
  {
    if hs == [] then 0 else if hs[0].key == key then 0 else 1 + FirstWith(hs[1..], key)
  }

  function Updated(hs: seq<Hint>, h: Hint): seq<Hint> {
    var i := FirstWith(hs, h.key);
    if i < |hs| then hs[i := h] else hs
  }

  /** The delivery loop updates with a copy of some stored hint hs[j]. The update lands on the first
      hint with that key, so when a target holds a key twice it can carry a later time to the front:
      order survives exactly when the copy is of that first hint, or the next hint is as young. */
  lemma UpdateKeepsOrderIff(hs: seq<Hint>, j: nat, h: Hint)
    requires Chronological(hs) && j < |hs| && h.key == hs[j].key && h.createdAt == hs[j].createdAt
    ensures FirstWith(hs, h.key) <= j
    ensures Chronological(Updated(hs, h)) <==>
      var i := FirstWith(hs, h.key); i == j || hs[i + 1].createdAt == hs[j].createdAt
  {
    ReplaceKeepsOrderIff(hs, FirstWith(hs, h.key), h);
  }

  /** Putting a younger hint in place of one keeps the order exactly when the next one is as young. */
  lemma ReplaceKeepsOrderIff(hs: seq<Hint>, i: nat, h: Hint)
    requires Chronological(hs) && i < |hs| && hs[i].createdAt <= h.createdAt
    ensures Chronological(hs[i := h]) <==> i + 1 == |hs| || h.createdAt <= hs[i + 1].createdAt
  {
    var r := hs[i := h];
    if Chronological(r) && i + 1 < |hs| {
      assert r[i].createdAt <= r[i + 1].createdAt;
    }
    if i + 1 == |hs| || h.createdAt <= hs[i + 1].createdAt {
      forall a, b | 0 <= a < b < |r| ensures r[a].createdAt <= r[b].createdAt {
        assert hs[a].createdAt <= hs[b].createdAt;
      }
    }
  }

  /** Three failed deliveries to one target that holds key "k" twice: the list is out of order, and
      the next eviction drops a hint that is not the oldest. */
  lemma UpdateCanDisorder()
    ensures
      var hs := [Hint("k", "t", 1, 1, 0), Hint("j", "t", 1, 3, 0), Hint("k", "t", 1, 5, 0)];
      var r := Updated(Updated(Updated(hs, hs[0].(attempts := 1)), hs[1].(attempts := 1)), hs[2].(attempts := 1));
      && Chronological(hs) && !Chronological(r)
      && exists x :: x in Added(r, Hint("m", "t", 1, 7, 0), 3) && x.createdAt < r[0].createdAt
  {
    var hs := [Hint("k", "t", 1, 1, 0), Hint("j", "t", 1, 3, 0), Hint("k", "t", 1, 5, 0)];
    var r1 := Updated(hs, hs[0].(attempts := 1));
    assert r1 == [hs[0].(attempts := 1), hs[1], hs[2]];
    assert r1[1..][0].key == "j";
    var r2 := Updated(r1, hs[1].(attempts := 1));
    assert FirstWith(r1[1..], "j") == 0;
    assert r2 == [hs[0].(attempts := 1), hs[1].(attempts := 1), hs[2]];
    var r := Updated(r2, hs[2].(attempts := 1));
    assert r == [hs[2].(attempts := 1), hs[1].(attempts := 1), hs[2]];
    assert r[0].createdAt == 5 && r[1].createdAt == 3;
    var a := Added(r, Hint("m", "t", 1, 7, 0), 3);
    assert a[0] == r[1];
  }

  // ---------------------------------------------------------------- runs of operations

  datatype Limits = Limits(maxHints: nat, budget: nat)

  datatype Op =
    | Add(hint: Hint)
    | Delete(target: Addr, key: string)
    | Update(hint: Hint)
    | Purge(cutoff: int)

  /** The stored hints after an operation. */
  ghost function Apply(m: Hints, op: Op, l: Limits): Hints
    requires l.maxHints > 0
  {
    match op
    case Add(h) => if SumAll(m) + h.dataSize > l.budget then m else m[h.target := Added(Of(m, h.target), h, l.maxHints)]
    case Delete(target, key) => m[target := Filtered(Of(m, target), OtherThan(key))]
    case Update(h) =>
      if FirstWith(Of(m, h.target), h.key) < |Of(m, h.target)| then m[h.target := Updated(Of(m, h.target), h)] else m
    case Purge(cutoff) => map t | t in m :: Filtered(m[t], YoungerThan(cutoff))
  }

  /** After a deletion the target's list holds exactly the hints with another key, in their order, and the
      other targets' lists are as they were. */
  lemma DeletionLeaves(m: Hints, target: Addr, key: string, l: Limits) returns (at: seq<nat>)
    requires l.maxHints > 0
    ensures var r := Apply(m, Delete(target, key), l);
      && StandsAt(Of(m, target), Of(r, target), at)
      && (forall k :: 0 <= k < |Of(m, target)| ==> (k in at <==> Of(m, target)[k].key != key))
      && (forall t :: t != target ==> Of(r, t) == Of(m, t))
  {
    at := FilteredPositions(Of(m, target), OtherThan(key));
  }

  /** After a purge every list holds exactly the hints created after the cutoff, in their order. */
  lemma PurgeLeaves(m: Hints, cutoff: int, l: Limits, t: Addr) returns (at: seq<nat>)
    requires l.maxHints > 0
    ensures var r := Apply(m, Purge(cutoff), l);
      && StandsAt(Of(m, t), Of(r, t), at)
      && (forall k :: 0 <= k < |Of(m, t)| ==> (k in at <==> Of(m, t)[k].createdAt > cutoff))
  {
    at := FilteredPositions(Of(m, t), YoungerThan(cutoff));
  }

  ghost function Run(ops: seq<Op>, l: Limits): Hints
    requires l.maxHints > 0
  {
    if ops == [] then map[] else Apply(Run(ops[..|ops| - 1], l), ops[|ops| - 1], l)
  }

  /** Every hint belongs to the target it is stored for and has the size its key determines. */
  ghost predicate SizedBy(m: Hints, size: string -> nat) {
    forall t :: t in m ==> ListSizedBy(m[t], t, size)
  }

  ghost predicate ListSizedBy(hs: seq<Hint>, t: Addr, size: string -> nat) {
    forall h :: h in hs ==> h.target == t && h.dataSize == size(h.key)
  }

  ghost predicate OpSizedBy(op: Op, size: string -> nat) {
    && (op.Add? ==> op.hint.dataSize == size(op.hint.key))
    && (op.Update? ==> op.hint.dataSize == size(op.hint.key))
  }

  ghost predicate WithinLimits(m: Hints, l: Limits) {
    && SumAll(m) <= l.budget
    && forall t :: t in m ==> |m[t]| <= l.maxHints
  }

  lemma AddedSum(hs: seq<Hint>, h: Hint, maxHints: nat)
    requires maxHints > 0
    ensures Sum(Added(hs, h, maxHints)) <= Sum(hs) + h.dataSize
    ensures |hs| >= maxHints ==> Sum(Added(hs, h, maxHints)) == Sum(hs) - hs[0].dataSize + h.dataSize
    ensures |hs| < maxHints ==> Sum(Added(hs, h, maxHints)) == Sum(hs) + h.dataSize
  {
    SumAppend(hs, h);
    if |hs| >= maxHints {
      SumTail(hs);
      SumAppend(hs[1..], h);
    }
  }

  lemma {:induction false} PurgeSum(m: Hints, m': Hints, targets: set<Addr>)
    requires forall t :: t in targets ==> Sum(Of(m', t)) <= Sum(Of(m, t))
    ensures SumOver(m', targets) <= SumOver(m, targets)
    decreases |targets|
  {
    if targets != {} {
      var t :| t in targets;
      SumSplit(m, targets, t);
      SumSplit(m', targets, t);
      PurgeSum(m, m', targets - {t});
    }
  }

  lemma ReplaceKeeps(m: Hints, t: Addr, hs: seq<Hint>, l: Limits, size: string -> nat)
    requires WithinLimits(m, l) && SizedBy(m, size)
    requires |hs| <= l.maxHints && SumAll(m) - Sum(Of(m, t)) + Sum(hs) <= l.budget && ListSizedBy(hs, t, size)
    ensures WithinLimits(m[t := hs], l) && SizedBy(m[t := hs], size)
  {
    SumUpdate(m, t, hs);
  }

  lemma AddedWithin(m: Hints, h: Hint, l: Limits)
    requires l.maxHints > 0 && WithinLimits(m, l) && SumAll(m) + h.dataSize <= l.budget
    ensures var r := Added(Of(m, h.target), h, l.maxHints);
      && WithinLimits(m[h.target := r], l)
      && SumAll(m[h.target := r])
         == SumAll(m) + h.dataSize - (if |Of(m, h.target)| >= l.maxHints then Of(m, h.target)[0].dataSize else 0)
  {
    var r := Added(Of(m, h.target), h, l.maxHints);
    AddedSum(Of(m, h.target), h, l.maxHints);
    SumUpdate(m, h.target, r);
  }

  lemma AddKeeps(m: Hints, h: Hint, l: Limits, size: string -> nat)
    requires l.maxHints > 0 && WithinLimits(m, l) && SizedBy(m, size) && h.dataSize == size(h.key)
    ensures WithinLimits(Apply(m, Add(h), l), l) && SizedBy(Apply(m, Add(h), l), size)
  {
    if SumAll(m) + h.dataSize <= l.budget {
      AddedSum(Of(m, h.target), h, l.maxHints);
      ReplaceKeeps(m, h.target, Added(Of(m, h.target), h, l.maxHints), l, size);
    }
  }

  lemma DeleteKeeps(m: Hints, target: Addr, key: string, l: Limits, size: string -> nat)
    requires l.maxHints > 0 && WithinLimits(m, l) && SizedBy(m, size)
    ensures WithinLimits(Apply(m, Delete(target, key), l), l) && SizedBy(Apply(m, Delete(target, key), l), size)
  {
    FilteredSmaller(Of(m, target), OtherThan(key));
    FilteredMembers(Of(m, target), OtherThan(key));
    ReplaceKeeps(m, target, Filtered(Of(m, target), OtherThan(key)), l, size);
  }

  lemma UpdateKeeps(m: Hints, h: Hint, l: Limits, size: string -> nat)
    requires l.maxHints > 0 && WithinLimits(m, l) && SizedBy(m, size) && h.dataSize == size(h.key)
    ensures WithinLimits(Apply(m, Update(h), l), l) && SizedBy(Apply(m, Update(h), l), size)
  {
    var hs := Of(m, h.target);
    var i := FirstWith(hs, h.key);
    if i < |hs| {
      assert hs[i] in m[h.target];
      SumReplace(hs, i, h);
      ReplaceKeeps(m, h.target, hs[i := h], l, size);
    }
  }

  lemma PurgeKeeps(m: Hints, cutoff: int, l: Limits, size: string -> nat)
    requires l.maxHints > 0 && WithinLimits(m, l) && SizedBy(m, size)
    ensures WithinLimits(Apply(m, Purge(cutoff), l), l) && SizedBy(Apply(m, Purge(cutoff), l), size)
  {
    var m' := Apply(m, Purge(cutoff), l);
    forall t | t in m.Keys ensures Sum(Of(m', t)) <= Sum(Of(m, t)) && |m'[t]| <= |m[t]| && ListSizedBy(m'[t], t, size) {
      FilteredSmaller(m[t], YoungerThan(cutoff));
      FilteredMembers(m[t], YoungerThan(cutoff));
    }
    assert m'.Keys == m.Keys;
    PurgeSum(m, m', m.Keys);
  }

  /** Over every run of operations on an empty store the stored sizes stay within the budget and each
      list within its cap, when sizes are determined by keys. */
  lemma {:induction false} RunStaysWithinLimits(ops: seq<Op>, l: Limits, size: string -> nat)
    requires l.maxHints > 0 && forall k :: 0 <= k < |ops| ==> OpSizedBy(ops[k], size)
    ensures WithinLimits(Run(ops, l), l) && SizedBy(Run(ops, l), size)
  {
    if ops != [] {
      RunStaysWithinLimits(ops[..|ops| - 1], l, size);
      var m := Run(ops[..|ops| - 1], l);
      match ops[|ops| - 1]
      case Add(h) => AddKeeps(m, h, l, size);
      case Delete(target, key) => DeleteKeeps(m, target, key, l, size);
      case Update(h) => UpdateKeeps(m, h, l, size);
      case Purge(cutoff) => PurgeKeeps(m, cutoff, l, size);
    }
  }

  /** Hints are added at the current time, and an update keeps the creation time of the hint it lands on. */
  ghost predicate Timely(m: Hints, op: Op) {
    && (op.Add? ==> forall i :: 0 <= i < |Of(m, op.hint.target)| ==> Of(m, op.hint.target)[i].createdAt <= op.hint.createdAt)
    && (op.Update? ==>
      var hs := Of(m, op.hint.target);
      var i := FirstWith(hs, op.hint.key);
      i < |hs| ==> hs[i].createdAt == op.hint.createdAt)
  }

  /** Over every such run each list stays in order of creation, so every eviction drops an oldest hint. */
  lemma {:induction false} RunStaysChronological(ops: seq<Op>, l: Limits)
    requires l.maxHints > 0 && forall k :: 0 <= k < |ops| ==> Timely(Run(ops[..k], l), ops[k])
    ensures forall t :: t in Run(ops, l) ==> Chronological(Run(ops, l)[t])
  {
    if ops != [] {
      var front := ops[..|ops| - 1];
      forall k | 0 <= k < |front| ensures Timely(Run(front[..k], l), front[k]) {
        assert front[..k] == ops[..k];
      }
      RunStaysChronological(front, l);
      ApplyKeepsChronological(Run(front, l), ops[|ops| - 1], l);
    }
  }

  lemma ApplyKeepsChronological(m: Hints, op: Op, l: Limits)
    requires l.maxHints > 0 && Timely(m, op) && forall t :: t in m ==> Chronological(m[t])
    ensures forall t :: t in Apply(m, op, l) ==> Chronological(Apply(m, op, l)[t])
  {
    match op
    case Add(h) => EvictionDropsOldest(Of(m, h.target), h, l.maxHints);
    case Delete(target, key) => FilteredChronological(Of(m, target), OtherThan(key));
    case Update(h) =>
    case Purge(cutoff) =>
      forall t | t in m ensures Chronological(Apply(m, op, l)[t]) {
        FilteredChronological(m[t], YoungerThan(cutoff));
      }
  }

  // ---------------------------------------------------------------- the store

  /** The filtering loop shared by deletion and purge. */
  method Remove(hs: seq<Hint>, rule: Rule) returns (kept: seq<Hint>, freed: nat)
    ensures kept == Filtered(hs, rule) && freed == Sum(hs) - Sum(kept)
  {
    kept, freed := [], 0;
    for i := 0 to |hs|
      invariant kept == Filtered(hs[..i], rule) && freed == Sum(hs[..i]) - Sum(kept)
    {
      FilteredStep(hs, i, rule);
      SumAppend(kept, hs[i]);
      if Keeps(rule, hs[i]) {
        kept := kept + [hs[i]];
      } else {
        freed := freed + hs[i].dataSize;
      }
    }
    assert hs[..|hs|] == hs;
  }

  class Store {
    const maxHints: nat
    const maxAge: int
    const maxDataSize: nat
    var hints: Hints
    var totalDataSize: int

    ghost function TheLimits(): Limits {
      Limits(maxHints, maxDataSize)
    }

    /** The running total is the sum of the sizes of all stored hints. */
    ghost predicate Valid()
      reads this
    {
      && maxHints > 0 && maxDataSize > 0
      && totalDataSize == SumAll(hints)
      && WithinLimits(hints, TheLimits())
    }

    /** A store over an empty directory; non-positive limits fall back to the defaults. */
    constructor (maxHints: int, maxAge: int, maxDataSize: int)
      ensures Valid() && hints == map[]
      ensures this.maxHints == if maxHints > 0 then maxHints else 200
      ensures this.maxAge == if maxAge > 0 then maxAge else 24 * 3600
      ensures this.maxDataSize == if maxDataSize > 0 then maxDataSize else 512 * 1024 * 1024
    {
      this.maxHints := if maxHints <= 0 then 200 else maxHints;
      this.maxAge := if maxAge <= 0 then 24 * 3600 else maxAge;
      this.maxDataSize := if maxDataSize <= 0 then 512 * 1024 * 1024 else maxDataSize;
      hints := map[];
      totalDataSize := 0;
    }

    /** Drops the hint when the budget would be exceeded; otherwise stores it, evicting the target's
        first hint when its list is full. */
    method AddHint(h: Hint)
      requires Valid()
      modifies this
      ensures Valid() && hints == Apply(old(hints), Add(h), TheLimits())
      ensures SumAll(old(hints)) + h.dataSize > maxDataSize ==> hints == old(hints)
      ensures SumAll(old(hints)) + h.dataSize <= maxDataSize ==>
        var stored := Of(old(hints), h.target);
        && Of(hints, h.target) == (if |stored| >= maxHints then stored[1..] else stored) + [h]
        && forall t :: t != h.target ==> Of(hints, t) == Of(old(hints), t)
    {
      var dataLen := h.dataSize;
      if maxDataSize > 0 && totalDataSize + dataLen > maxDataSize {
        return;
      }
      var hs := Of(hints, h.target);
      ghost var stored := hs;
      AddedWithin(hints, h, TheLimits());
      if |hs| >= maxHints {
        var evicted := hs[0];
        totalDataSize := totalDataSize - evicted.dataSize;
        hs := hs[1..];
      }
      hs := hs + [h];
      assert hs == Added(stored, h, maxHints);
      hints := hints[h.target := hs];
      totalDataSize := totalDataSize + dataLen;
    }

    /** Removes every hint of the target with the key. */
    method DeleteHint(target: Addr, key: string)
      requires Valid()
      modifies this
      ensures Valid() && hints == Apply(old(hints), Delete(target, key), TheLimits())
    {
      var filtered, freed := Remove(Of(hints, target), OtherThan(key));
      FilteredSmaller(Of(hints, target), OtherThan(key));
      SumUpdate(hints, target, filtered);
      hints := hints[target := filtered];
      totalDataSize := totalDataSize - freed;
    }

    /** Replaces the first hint with the same key. The running total is not adjusted, so it stays
        right exactly when the sizes agree, as they do when keys determine sizes. */
    method UpdateHint(h: Hint)
      requires Valid()
      modifies this`hints
      ensures hints == Apply(old(hints), Update(h), TheLimits())
      ensures
        var hs := Of(old(hints), h.target);
        var i := FirstWith(hs, h.key);
        hints == if i == |hs| then old(hints) else old(hints)[h.target := hs[i := h]]
      ensures
        var hs := Of(old(hints), h.target);
        var i := FirstWith(hs, h.key);
        Valid() <==> i == |hs| || hs[i].dataSize == h.dataSize
    {
      var hs := Of(hints, h.target);
      var i := 0;
      while i < |hs|
        invariant 0 <= i <= |hs| && hints == old(hints)
        invariant forall j :: 0 <= j < i ==> hs[j].key != h.key
      {
        if hs[i].key == h.key {
          SumReplace(hs, i, h);
          SumUpdate(hints, h.target, hs[i := h]);
          assert FirstWith(hs, h.key) == i;
          hints := hints[h.target := hs[i := h]];
          return;
        }
        i := i + 1;
      }
      assert FirstWith(hs, h.key) == |hs|;
    }

    /** One target's share of a purge: keeps the hints younger than the cutoff. */
    method PurgeTarget(addr: Addr, cutoff: int)
      requires Valid() && addr in hints
      modifies this
      ensures Valid() && hints == old(hints)[addr := Filtered(old(hints)[addr], YoungerThan(cutoff))]
    {
      var hs := hints[addr];
      var young, freed := Remove(hs, YoungerThan(cutoff));
      FilteredSmaller(hs, YoungerThan(cutoff));
      SumUpdate(hints, addr, young);
      totalDataSize := totalDataSize - freed;
      if |young| != |hs| {
        hints := hints[addr := young];
      } else {
        assert hints[addr := young] == hints;
      }
    }

    /** Removes every hint not younger than maxAge, in any order of targets. */
    method PurgeExpired(now: int)
      requires Valid()
      modifies this
      ensures Valid() && hints == Apply(old(hints), Purge(now - maxAge), TheLimits())
    {
      var cutoff := now - maxAge;
      var left := hints.Keys;
      while left != {}
        invariant Valid() && hints.Keys == old(hints).Keys && left <= hints.Keys
        invariant forall t :: t in hints ==>
          hints[t] == if t in left then old(hints)[t] else Filtered(old(hints)[t], YoungerThan(cutoff))
        decreases left
      {
        var addr :| addr in left;
        PurgeTarget(addr, cutoff);
        left := left - {addr};
      }
    }
  }
}
