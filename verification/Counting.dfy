/** How often names occur.
    The specification counts in a sequence; the programs fill a dictionary that starts empty and
    remembers the order of first insertion.
    `Fingerprints` and `Counterfactual` fill one each. */
module Counting {

  import opened Sequences

  type Name = string

  function Tally(items: seq<Name>, name: Name): nat {
    if items == [] then 0
    else Tally(items[..|items| - 1], name) + (if items[|items| - 1] == name then 1 else 0)
  }

  lemma {:induction false} TallyIsMultiplicity(items: seq<Name>, name: Name)
    ensures Tally(items, name) == multiset(items)[name]
  {
    if items != [] {
      TallyIsMultiplicity(items[..|items| - 1], name);
      assert items == items[..|items| - 1] + [items[|items| - 1]];
    }
  }

  function Count(counts: map<Name, nat>, name: Name): nat {
    if name in counts then counts[name] else 0
  }

  predicate CountAt(counts: map<Name, nat>, items: seq<Name>, name: Name) {
    && (name in counts <==> name in items)
    && Count(counts, name) == Tally(items, name)
  }

  /** The counter holds what the items say. */
  ghost predicate Counts(counts: map<Name, nat>, items: seq<Name>) {
    forall name {:trigger CountAt(counts, items, name)} :: CountAt(counts, items, name)
  }

  lemma {:induction false} TallyAbsent(items: seq<Name>, name: Name)
    ensures Tally(items, name) == 0 <==> name !in items
  {
    if items != [] {
      TallyAbsent(items[..|items| - 1], name);
      assert items == items[..|items| - 1] + [items[|items| - 1]];
    }
  }

  function Increment(counts: map<Name, nat>, name: Name): map<Name, nat> {
    counts[name := Count(counts, name) + 1]
  }

  lemma IncrementCounts(counts: map<Name, nat>, items: seq<Name>, name: Name)
    requires Counts(counts, items)
    ensures Counts(Increment(counts, name), items + [name])
  {
    var next, more := Increment(counts, name), items + [name];
    assert more[..|more| - 1] == items;
    forall other ensures CountAt(next, more, other) {
      assert CountAt(counts, items, other);
    }
  }

  /** Names in the order of their first occurrence. */
  function Firsts(items: seq<Name>): (r: seq<Name>)
    ensures forall name :: name in r <==> name in items
  {
    if items == [] then []
    else
      var before, last := items[..|items| - 1], items[|items| - 1];
      assert items == before + [last];
      Firsts(before) + (if last in before then [] else [last])
  }

  lemma {:induction false} FirstsDistinct(items: seq<Name>)
    ensures Distinct(Firsts(items))
  {
    if items != [] {
      FirstsDistinct(items[..|items| - 1]);
    }
  }

  /** What occurs in an earlier part comes first, in the order of that part. */
  lemma {:induction false} FirstsInOrder(items: seq<Name>, k: nat)
    requires k <= |items|
    ensures Firsts(items[..k]) <= Firsts(items)
  {
    if k < |items| {
      FirstsInOrder(items[..|items| - 1], k);
      assert items[..|items| - 1][..k] == items[..k];
    } else {
      assert items[..k] == items;
    }
  }

  lemma OneMoreFirst(items: seq<Name>, name: Name)
    ensures Firsts(items + [name]) == Firsts(items) + if name in items then [] else [name]
  {
    assert (items + [name])[..|items|] == items;
  }

  /** Counts one more item; `order` is the order in which the counter was filled. */
  method CountItem(counts: map<Name, nat>, order: seq<Name>, name: Name, ghost items: seq<Name>)
    returns (newCounts: map<Name, nat>, newOrder: seq<Name>)
    requires Counts(counts, items) && order == Firsts(items)
    ensures Counts(newCounts, items + [name]) && newOrder == Firsts(items + [name])
  {
    OneMoreFirst(items, name);
    assert CountAt(counts, items, name);
    newOrder := if name in counts then order else order + [name];
    IncrementCounts(counts, items, name);
    newCounts := Increment(counts, name);
  }
}
