/** Inventories of the game: ordered lists of `{id, amount}` lines, kept by
    workers and bases, merged line by line by resource id. */
module Inventory {

  /** One inventory line: a resource id and how much of it is held. */
  datatype Item = Item(id: string, amount: int)

  /** The total weight of an inventory: the sum of its amounts, accumulated
      front to back as `calculateWeight` does. */
  function Sum(inv: seq<Item>): int
  {
    if inv == [] then 0 else Sum(inv[..|inv| - 1]) + inv[|inv| - 1].amount
  }

  /** How much of resource `id` the inventory holds, over all lines that carry
      it: the inventory read as a map from id to amount. */
  function AmountOf(inv: seq<Item>, id: string): int
  {
    if inv == [] then 0
    else AmountOf(inv[..|inv| - 1], id) + (if inv[|inv| - 1].id == id then inv[|inv| - 1].amount else 0)
  }

  /** No two lines carry the same id. */
  ghost predicate IdsUnique(inv: seq<Item>)
  {
    forall i, j :: 0 <= i < j < |inv| ==> inv[i].id != inv[j].id
  }

  /** Where `find(item => item.id === id)` stops: the first line carrying `id`,
      or `|inv|` when there is none. */
  function FindLine(inv: seq<Item>, id: string): (k: nat)
    ensures k <= |inv|
    ensures k < |inv| ==> inv[k].id == id
    ensures forall i :: 0 <= i < k ==> inv[i].id != id
  {
    if inv == [] then 0
    else if inv[0].id == id then 0
    else 1 + FindLine(inv[1..], id)
  }

  /** Adding `n` of resource `id`: the first line with that id is incremented,
      otherwise a new line is appended at the end. */
  function AddLine(inv: seq<Item>, id: string, n: int): seq<Item>
  {
    var k := FindLine(inv, id);
    if k < |inv| then inv[k := inv[k].(amount := inv[k].amount + n)] else inv + [Item(id, n)]
  }

  /** Every line of `items`, in order, added to `into`. */
  function MergeAll(into: seq<Item>, items: seq<Item>): seq<Item>
  {
    if items == [] then into
    else
      var last := items[|items| - 1];
      AddLine(MergeAll(into, items[..|items| - 1]), last.id, last.amount)
  }

  lemma SumAppend(inv: seq<Item>, x: Item)
    ensures Sum(inv + [x]) == Sum(inv) + x.amount
  {
  }

  lemma AmountOfAppend(inv: seq<Item>, x: Item, id: string)
    ensures AmountOf(inv + [x], id) == AmountOf(inv, id) + (if x.id == id then x.amount else 0)
  {
  }

  /** Raising one line by `n` raises the total by `n`. */
  lemma {:induction false} SumUpdate(s: seq<Item>, k: nat, n: int)
    requires k < |s|
    ensures Sum(s[k := s[k].(amount := s[k].amount + n)]) == Sum(s) + n
  {
    var t := s[k := s[k].(amount := s[k].amount + n)];
    var m := |s| - 1;
    if k == m {
      assert t[..m] == s[..m];
    } else {
      assert t[..m] == s[..m][k := s[k].(amount := s[k].amount + n)];
      SumUpdate(s[..m], k, n);
    }
  }

  /** Raising one line by `n` raises the amount of that line's id by `n` and
      leaves every other id's amount alone. */
  lemma {:induction false} AmountOfUpdate(s: seq<Item>, k: nat, n: int, id: string)
    requires k < |s|
    ensures AmountOf(s[k := s[k].(amount := s[k].amount + n)], id)
         == AmountOf(s, id) + (if s[k].id == id then n else 0)
  {
    var t := s[k := s[k].(amount := s[k].amount + n)];
    var m := |s| - 1;
    if k == m {
      assert t[..m] == s[..m];
    } else {
      assert t[..m] == s[..m][k := s[k].(amount := s[k].amount + n)];
      AmountOfUpdate(s[..m], k, n, id);
    }
  }

  /** With unique ids, the amount held of a line's id is that line's amount. */
  lemma {:induction false} AmountOfUnique(inv: seq<Item>, k: nat)
    requires IdsUnique(inv) && k < |inv|
    ensures AmountOf(inv, inv[k].id) == inv[k].amount
  {
    var m := |inv| - 1;
    if k == m {
      AmountOfAbsent(inv[..m], inv[k].id);
    } else {
      AmountOfUnique(inv[..m], k);
    }
  }

  /** An id that no line carries has amount 0. */
  lemma {:induction false} AmountOfAbsent(inv: seq<Item>, id: string)
    requires forall i :: 0 <= i < |inv| ==> inv[i].id != id
    ensures AmountOf(inv, id) == 0
  {
    if inv != [] {
      AmountOfAbsent(inv[..|inv| - 1], id);
    }
  }

  /** Adding `n` of a resource raises the total weight by exactly `n`. */
  lemma {:induction false} SumAddLine(inv: seq<Item>, id: string, n: int)
    ensures Sum(AddLine(inv, id, n)) == Sum(inv) + n
  {
    var k := FindLine(inv, id);
    if k < |inv| {
      SumUpdate(inv, k, n);
    } else {
      SumAppend(inv, Item(id, n));
    }
  }

  /** Adding `n` of `id` is a map update: `id` gains `n`, every other id keeps
      its amount. */
  lemma {:induction false} AmountOfAddLine(inv: seq<Item>, id: string, n: int, other: string)
    ensures AmountOf(AddLine(inv, id, n), other) == AmountOf(inv, other) + (if other == id then n else 0)
  {
    var k := FindLine(inv, id);
    if k < |inv| {
      AmountOfUpdate(inv, k, n, other);
    } else {
      AmountOfAppend(inv, Item(id, n), other);
    }
  }

  /** Adding to an inventory never creates a second line for an id, and the
      added id ends up with a line of its own. */
  lemma {:induction false} AddLineIdsUnique(inv: seq<Item>, id: string, n: int)
    requires IdsUnique(inv)
    ensures IdsUnique(AddLine(inv, id, n))
    ensures FindLine(AddLine(inv, id, n), id) < |AddLine(inv, id, n)|
  {
    var k := FindLine(inv, id);
    var r := AddLine(inv, id, n);
    if k < |inv| {
      assert forall i :: 0 <= i < |r| ==> r[i].id == inv[i].id;
    } else {
      assert r[|inv|].id == id;
    }
  }

  /** A drop-off adds the depositor's whole total to the receiver's. */
  lemma {:induction false} MergeAllSum(into: seq<Item>, items: seq<Item>)
    ensures Sum(MergeAll(into, items)) == Sum(into) + Sum(items)
  {
    if items != [] {
      var m := |items| - 1;
      MergeAllSum(into, items[..m]);
      SumAddLine(MergeAll(into, items[..m]), items[m].id, items[m].amount);
    }
  }

  /** A drop-off adds, id by id, what the depositor held of it. */
  lemma {:induction false} MergeAllAmountOf(into: seq<Item>, items: seq<Item>, id: string)
    ensures AmountOf(MergeAll(into, items), id) == AmountOf(into, id) + AmountOf(items, id)
  {
    if items != [] {
      var m := |items| - 1;
      MergeAllAmountOf(into, items[..m], id);
      AmountOfAddLine(MergeAll(into, items[..m]), items[m].id, items[m].amount, id);
    }
  }

  /** A drop-off keeps the receiver's ids unique, whatever the depositor's
      lines are. */
  lemma {:induction false} MergeAllIdsUnique(into: seq<Item>, items: seq<Item>)
    requires IdsUnique(into)
    ensures IdsUnique(MergeAll(into, items))
  {
    if items != [] {
      var m := |items| - 1;
      MergeAllIdsUnique(into, items[..m]);
      AddLineIdsUnique(MergeAll(into, items[..m]), items[m].id, items[m].amount);
    }
  }

  /** Two drop-offs in a row at one base, both carrying the same resource,
      leave one line for it holding the three amounts together. */
  lemma {:induction false} TwoDropOffsOneLinePerId(base: seq<Item>, first: seq<Item>, second: seq<Item>, id: string)
    requires IdsUnique(base)
    ensures IdsUnique(MergeAll(MergeAll(base, first), second))
    ensures AmountOf(MergeAll(MergeAll(base, first), second), id)
         == AmountOf(base, id) + AmountOf(first, id) + AmountOf(second, id)
  {
    MergeAllIdsUnique(base, first);
    MergeAllIdsUnique(MergeAll(base, first), second);
    MergeAllAmountOf(base, first, id);
    MergeAllAmountOf(MergeAll(base, first), second, id);
  }

  /** `calculateWeight`: the `forEach` loop that accumulates the amounts. */
  method CalculateWeight(inv: seq<Item>) returns (total: int)
    ensures total == Sum(inv)
  {
    total := 0;
    var i := 0;
    while i < |inv|
      invariant 0 <= i <= |inv|
      invariant total == Sum(inv[..i])
    {
      assert inv[..i + 1][..i] == inv[..i];
      total := total + inv[i].amount;
      i := i + 1;
    }
    assert inv[..|inv|] == inv;
  }

  /** `find` the line carrying `id` and raise it by `n`, or `push` a new line
      `{id, amount: n}`: the step shared by the harvest and the drop-off. */
  method AddItem(inv: seq<Item>, id: string, n: int) returns (r: seq<Item>)
    ensures r == AddLine(inv, id, n)
  {
    var k := FindLine(inv, id);
    if k < |inv| {
      r := inv[k := inv[k].(amount := inv[k].amount + n)];
    } else {
      r := inv + [Item(id, n)];
    }
  }

  /** The drop-off loop: for each line of `items`, `find` the receiver's line
      with the same id and raise it, or `push` a copy of the line. */
  method Deposit(into: seq<Item>, items: seq<Item>) returns (r: seq<Item>)
    ensures r == MergeAll(into, items)
  {
    r := into;
    var i := 0;
    while i < |items|
      invariant 0 <= i <= |items|
      invariant r == MergeAll(into, items[..i])
    {
      r := AddItem(r, items[i].id, items[i].amount);
      assert items[..i + 1][..i] == items[..i];
      i := i + 1;
    }
    assert items[..|items|] == items;
  }
}
