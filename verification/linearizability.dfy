/** The register-history checker: a backtracking search, exact against a declarative definition. */
module Linearizability {
  import opened Bytes

  datatype Operation = Write(value: string) | Read
  datatype Outcome = Ok(observed: Option<string>) | Fail | Info
  datatype Entry = Entry(id: nat, invoke: nat, complete: nat, operation: Operation, outcome: Outcome)

  type History = seq<Entry>
  type Register = Option<string>

  // ----- What linearizable means -----

  /** `order` names every entry once. */
  ghost predicate Permutation(h: History, order: seq<nat>) {
    && (forall i :: 0 <= i < |order| ==> order[i] < |h|)
    && (forall i, j :: 0 <= i < j < |order| ==> order[i] != order[j])
    && (forall x :: 0 <= x < |h| ==> x in order)
  }

  /** No entry stands before one that completed before its own invocation. */
  ghost predicate RespectsTime(h: History, order: seq<nat>)
    requires forall i :: 0 <= i < |order| ==> order[i] < |h|
  {
    forall i, j :: 0 <= i < j < |order| ==> !(h[order[j]].complete < h[order[i]].invoke)
  }

  /** The register after an entry; `took` tells whether an indeterminate write happened. */
  function Next(e: Entry, before: Register, took: bool): Register {
    if e.operation.Write? && (e.outcome.Ok? || (e.outcome.Info? && took)) then Some(e.operation.value) else before
  }

  /** The register after the first `n` entries of an order. */
  ghost function After(h: History, order: seq<nat>, took: seq<bool>, start: Register, n: nat): Register
    requires n <= |order| == |took| && forall i :: 0 <= i < |order| ==> order[i] < |h|
  {
    if n == 0 then start else Next(h[order[n - 1]], After(h, order, took, start, n - 1), took[n - 1])
  }

  predicate Fits(e: Entry, register: Register) {
    e.operation.Read? && e.outcome.Ok? ==> e.outcome.observed == register
  }

  /** Every successful read observes the register. */
  ghost predicate ReadsFit(h: History, order: seq<nat>, took: seq<bool>, start: Register)
    requires |order| == |took| && forall i :: 0 <= i < |order| ==> order[i] < |h|
  {
    forall i :: 0 <= i < |order| ==> Fits(h[order[i]], After(h, order, took, start, i))
  }

  ghost predicate Linearization(h: History, order: seq<nat>, took: seq<bool>) {
    && Permutation(h, order) && |took| == |order|
    && RespectsTime(h, order) && ReadsFit(h, order, took, None)
  }

  ghost predicate Linearizable(h: History) {
    exists order, took :: Linearization(h, order, took)
  }

  // ----- The same, one entry at a time -----

  ghost predicate Blocked(h: History, used: seq<bool>, candidate: nat)
    requires |used| == |h| && candidate < |h|
  {
    exists i :: 0 <= i < |h| && !used[i] && i != candidate && h[i].complete < h[candidate].invoke
  }

  /** The entries not yet used can be taken in this order. */
  ghost predicate Completes(h: History, used: seq<bool>, start: Register, order: seq<nat>, took: seq<bool>)
    requires |used| == |h|
    decreases |order|
  {
    && |took| == |order|
    && if order == [] then forall i :: 0 <= i < |used| ==> used[i]
       else
         var x := order[0];
         && x < |h| && !used[x] && !Blocked(h, used, x) && Fits(h[x], start)
         && Completes(h, used[x := true], Next(h[x], start, took[0]), order[1..], took[1..])
  }

  ghost predicate Completable(h: History, used: seq<bool>, start: Register)
    requires |used| == |h|
  {
    exists order, took :: Completes(h, used, start, order, took)
  }

  /** `order` names every unused entry once. */
  ghost predicate Remaining(h: History, used: seq<bool>, order: seq<nat>)
    requires |used| == |h|
  {
    && (forall i :: 0 <= i < |order| ==> order[i] < |h| && !used[order[i]])
    && (forall i, j :: 0 <= i < j < |order| ==> order[i] != order[j])
    && (forall x :: 0 <= x < |h| && !used[x] ==> x in order)
  }

  lemma {:induction false} AfterShift(h: History, order: seq<nat>, took: seq<bool>, start: Register, n: nat)
    requires 0 < n <= |order| == |took| && forall i :: 0 <= i < |order| ==> order[i] < |h|
    ensures After(h, order, took, start, n)
      == After(h, order[1..], took[1..], Next(h[order[0]], start, took[0]), n - 1)
  {
    if n > 1 {
      AfterShift(h, order, took, start, n - 1);
    } else {
      assert After(h, order, took, start, 0) == start;
    }
  }

  lemma RestRemains(h: History, used: seq<bool>, order: seq<nat>)
    requires |used| == |h| && Remaining(h, used, order) && order != []
    ensures Remaining(h, used[order[0] := true], order[1..])
  {
    var x := order[0];
    forall y | 0 <= y < |h| && !used[x := true][y]
      ensures y in order[1..]
    {
      assert y in order;
    }
  }

  lemma MoreRemains(h: History, used: seq<bool>, x: nat, rest: seq<nat>)
    requires |used| == |h| && x < |h| && !used[x] && Remaining(h, used[x := true], rest)
    ensures Remaining(h, used, [x] + rest)
  {
    var marked, order := used[x := true], [x] + rest;
    forall i | 0 <= i < |order|
      ensures order[i] < |h| && !used[order[i]] && (i > 0 ==> order[i] != x)
    {
      if i > 0 {
        assert !marked[rest[i - 1]];
      }
    }
    forall y | 0 <= y < |h| && !used[y]
      ensures y in order
    {
      if y != x {
        assert !marked[y];
        assert y in rest;
      }
    }
  }

  lemma {:induction false} StepwiseIsDeclarative(
    h: History, used: seq<bool>, start: Register, order: seq<nat>, took: seq<bool>)
    requires |used| == |h| && Completes(h, used, start, order, took)
    ensures Remaining(h, used, order) && RespectsTime(h, order) && ReadsFit(h, order, took, start)
    decreases |order|
  {
    if order != [] {
      var x, rest := order[0], order[1..];
      StepwiseIsDeclarative(h, used[x := true], Next(h[x], start, took[0]), rest, took[1..]);
      MoreRemains(h, used, x, rest);
      assert order == [x] + rest;
      forall i | 0 <= i < |order|
        ensures Fits(h[order[i]], After(h, order, took, start, i))
      {
        if i > 0 {
          AfterShift(h, order, took, start, i);
          assert rest[i - 1] == order[i];
        }
      }
      forall i, j | 0 <= i < j < |order|
        ensures !(h[order[j]].complete < h[order[i]].invoke)
      {
        if i > 0 {
          assert rest[i - 1] == order[i] && rest[j - 1] == order[j];
        }
      }
    }
  }

  lemma {:induction false} DeclarativeIsStepwise(
    h: History, used: seq<bool>, start: Register, order: seq<nat>, took: seq<bool>)
    requires |used| == |h| && |took| == |order|
    requires Remaining(h, used, order) && RespectsTime(h, order) && ReadsFit(h, order, took, start)
    ensures Completes(h, used, start, order, took)
    decreases |order|
  {
    hide Blocked, After, Next, Fits, ReadsFit;
    if order != [] {
      var x, rest := order[0], order[1..];
      RestRemains(h, used, order);
      FirstUnblocked(h, used, order);
      RestFits(h, order, took, start);
      DeclarativeIsStepwise(h, used[x := true], Next(h[x], start, took[0]), rest, took[1..]);
    } else {
      forall i | 0 <= i < |used|
        ensures used[i]
      {
        assert !used[i] ==> i in order;
      }
    }
  }

  lemma RestFits(h: History, order: seq<nat>, took: seq<bool>, start: Register)
    requires |took| == |order| && order != [] && (forall i :: 0 <= i < |order| ==> order[i] < |h|)
    requires ReadsFit(h, order, took, start)
    ensures Fits(h[order[0]], start)
    ensures ReadsFit(h, order[1..], took[1..], Next(h[order[0]], start, took[0]))
  {
    hide Fits, Next;
    var rest, next := order[1..], Next(h[order[0]], start, took[0]);
    assert Fits(h[order[0]], After(h, order, took, start, 0));
    forall i | 0 <= i < |rest|
      ensures Fits(h[rest[i]], After(h, rest, took[1..], next, i))
    {
      AfterShift(h, order, took, start, i + 1);
      assert Fits(h[order[i + 1]], After(h, order, took, start, i + 1));
    }
  }

  lemma FirstUnblocked(h: History, used: seq<bool>, order: seq<nat>)
    requires |used| == |h| && order != [] && Remaining(h, used, order) && RespectsTime(h, order)
    ensures !Blocked(h, used, order[0])
  {
    forall i | 0 <= i < |h| && !used[i] && i != order[0]
      ensures !(h[i].complete < h[order[0]].invoke)
    {
      assert i in order;
      var j :| 0 <= j < |order| && order[j] == i;
    }
  }

  /** Both definitions agree. */
  lemma LinearizableIsCompletable(h: History)
    ensures Linearizable(h) <==> Completable(h, seq(|h|, _ => false), None)
  {
    var used := seq(|h|, _ => false);
    if Linearizable(h) {
      var order, took :| Linearization(h, order, took);
      DeclarativeIsStepwise(h, used, None, order, took);
    }
    if Completable(h, used, None) {
      var order, took :| Completes(h, used, None, order, took);
      StepwiseIsDeclarative(h, used, None, order, took);
      assert Linearization(h, order, took);
    }
  }

  // ----- The search -----

  ghost function Unused(used: seq<bool>): nat {
    if used == [] then 0 else (if used[0] then 0 else 1) + Unused(used[1..])
  }

  lemma {:induction false} UnusedDrops(used: seq<bool>, x: nat)
    requires x < |used| && !used[x]
    ensures Unused(used[x := true]) < Unused(used)
  {
    if x == 0 {
      assert used[x := true][1..] == used[1..];
    } else {
      assert used[x := true][1..] == used[1..][x - 1 := true];
      UnusedDrops(used[1..], x - 1);
    }
  }

  /** Entry `x` may come next and the rest can follow. */
  ghost predicate StartsWell(h: History, used: seq<bool>, start: Register, x: nat)
    requires |used| == |h| && x < |h|
  {
    && !used[x] && !Blocked(h, used, x) && Fits(h[x], start)
    && (Completable(h, used[x := true], Next(h[x], start, false))
        || Completable(h, used[x := true], Next(h[x], start, true)))
  }

  lemma CompletableStarts(h: History, used: seq<bool>, start: Register)
    requires |used| == |h|
    ensures Completable(h, used, start) <==>
      (forall i :: 0 <= i < |used| ==> used[i]) || (exists x :: 0 <= x < |h| && StartsWell(h, used, start, x))
  {
    if Completable(h, used, start) {
      var order, took :| Completes(h, used, start, order, took);
      if order != [] {
        assert Completes(h, used[order[0] := true], Next(h[order[0]], start, took[0]), order[1..], took[1..]);
        assert StartsWell(h, used, start, order[0]);
      }
    }
    if forall i :: 0 <= i < |used| ==> used[i] {
      assert Completes(h, used, start, [], []);
    }
    if x :| 0 <= x < |h| && StartsWell(h, used, start, x) {
      var t := if Completable(h, used[x := true], Next(h[x], start, false)) then false else true;
      var order, took :| Completes(h, used[x := true], Next(h[x], start, t), order, took);
      assert ([x] + order)[1..] == order && ([t] + took)[1..] == took;
      assert Completes(h, used, start, [x] + order, [t] + took);
    }
  }

  method HasUnorderedPredecessor(h: History, used: array<bool>, candidate: nat) returns (r: bool)
    requires used.Length == |h| && candidate < |h|
    ensures r <==> Blocked(h, used[..], candidate)
  {
    for index := 0 to |h|
      invariant forall i :: 0 <= i < index ==> !(!used[i] && i != candidate && h[i].complete < h[candidate].invoke)
    {
      if !used[index] && index != candidate && h[index].complete < h[candidate].invoke {
        assert !used[..][index];
        return true;
      }
    }
    return false;
  }

  method AllUsed(used: array<bool>) returns (r: bool)
    ensures r <==> forall i :: 0 <= i < |used[..]| ==> used[..][i]
  {
    for index := 0 to used.Length
      invariant forall i :: 0 <= i < index ==> used[i]
    {
      if !used[index] {
        assert !used[..][index];
        return false;
      }
    }
    return true;
  }

  /** Tries every entry that may come next, and undoes each mark before the next try. */
  method Search(h: History, used: array<bool>, state: Register) returns (r: bool)
    requires used.Length == |h|
    modifies used
    ensures used[..] == old(used[..])
    ensures r <==> Completable(h, used[..], state)
    decreases Unused(used[..]), 1
  {
    hide Completable, Blocked, Fits;
    CompletableStarts(h, used[..], state);
    var finished := AllUsed(used);
    if finished {
      return true;
    }
    for index := 0 to |h|
      invariant used[..] == old(used[..])
      invariant forall x :: 0 <= x < index ==> !StartsWell(h, used[..], state, x)
    {
      var blocked := HasUnorderedPredecessor(h, used, index);
      assert used[..][index] == used[index];
      if used[index] || blocked {
        continue;
      }
      var succeeds := TryEntry(h, used, state, index);
      if succeeds {
        return true;
      }
    }
    return false;
  }

  /** Marks one entry, searches on from its effect, and unmarks it. */
  method TryEntry(h: History, used: array<bool>, state: Register, index: nat) returns (succeeds: bool)
    requires used.Length == |h| && index < |h| && !used[..][index] && !Blocked(h, used[..], index)
    modifies used
    ensures used[..] == old(used[..])
    ensures succeeds <==> StartsWell(h, used[..], state, index)
    decreases Unused(used[..]), 0
  {
    hide Completable, Blocked;
    ghost var before := used[..];
    UnusedDrops(before, index);
    var entry := h[index];
    used[index] := true;
    assert used[..] == before[index := true];
    match (entry.operation, entry.outcome) {
      case (_, Fail) =>
        succeeds := Search(h, used, state);
      case (Write(value), Ok(_)) =>
        succeeds := Search(h, used, Some(value));
      case (Read, Ok(observed)) =>
        if observed == state {
          succeeds := Search(h, used, state);
        } else {
          succeeds := false;
        }
      case (Write(value), Info) =>
        succeeds := Search(h, used, state);
        if !succeeds {
          succeeds := Search(h, used, Some(value));
        }
      case (Read, Info) =>
        succeeds := Search(h, used, state);
    }
    used[index] := false;
    assert used[..] == before;
  }

  method IsLinearizable(h: History) returns (r: bool)
    ensures r <==> Linearizable(h)
  {
    hide Completable, Linearizable;
    var used := new bool[|h|](_ => false);
    assert used[..] == seq(|h|, _ => false);
    LinearizableIsCompletable(h);
    r := Search(h, used, None);
  }
}
