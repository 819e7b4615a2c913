/** The selector items as the parameter sees them: the item factory, the
    item's wire form and the item's own check are not part of this model, so
    they are carried as uninterpreted functions in an `ItemKit`. This module
    also holds the list operations the parameter performs over items. */
module SelectorItems {
  import opened Wrappers
  import opened JsValues

  /** The item factory (`createItem`, `None` for an unrecognised raw value),
      an item's `serialize()` and an item's `validate()`. */
  datatype ItemKit<!Item> = ItemKit(
    create: Json -> Option<Item>,
    serialize: Item -> Json,
    valid: Item -> bool)

  /** The items the factory accepts from `xs`, in the order of `xs`;
      rejected entries are dropped. */
  function FilterMap<A, B>(f: A -> Option<B>, xs: seq<A>): (r: seq<B>)
    ensures |r| <= |xs|
    decreases |xs|
  {
    if |xs| == 0 then []
    else
      var rest := FilterMap(f, xs[1..]);
      match f(xs[0])
      case Some(item) => [item] + rest
      case None => rest
  }

  /** Mapping wire form over a list of items, as the serialisation loop does. */
  function SerializeAll<Item>(kit: ItemKit<Item>, items: seq<Item>): (r: seq<Json>)
    ensures |r| == |items|
    ensures forall k :: 0 <= k < |items| ==> r[k] == kit.serialize(items[k])
    decreases |items|
  {
    if |items| == 0 then []
    else [kit.serialize(items[0])] + SerializeAll(kit, items[1..])
  }

  /** The conjunction of the items' own checks, stopping at the first failure. */
  function AllValid<Item>(kit: ItemKit<Item>, items: seq<Item>): (ok: bool)
    ensures ok <==> forall k :: 0 <= k < |items| ==> kit.valid(items[k])
    decreases |items|
  {
    if |items| == 0 then true
    else if !kit.valid(items[0]) then false
    else AllValid(kit, items[1..])
  }

  /** Filter-map distributes over concatenation: the accepted items of a list
      keep the relative order of the entries they came from. */
  lemma {:induction false} FilterMapAppend<A, B>(f: A -> Option<B>, xs: seq<A>, ys: seq<A>)
    ensures FilterMap(f, xs + ys) == FilterMap(f, xs) + FilterMap(f, ys)
    decreases |xs|
  {
    if |xs| == 0 {
      assert xs + ys == ys;
    } else {
      assert (xs + ys)[1..] == xs[1..] + ys;
      FilterMapAppend(f, xs[1..], ys);
    }
  }

  /** One entry: the accepted item, or nothing. */
  lemma FilterMapSingleton<A, B>(f: A -> Option<B>, x: A)
    ensures f(x).Some? ==> FilterMap(f, [x]) == [f(x).value]
    ensures f(x).None? ==> FilterMap(f, [x]) == []
  {
  }

  /** The list keeps its length exactly when the factory accepts every entry. */
  lemma {:induction false} FilterMapKeepsLengthIffAllAccepted<A, B>(f: A -> Option<B>, xs: seq<A>)
    ensures |FilterMap(f, xs)| == |xs| <==> forall i :: 0 <= i < |xs| ==> f(xs[i]).Some?
    ensures (forall i :: 0 <= i < |xs| ==> f(xs[i]).Some?) ==>
              forall i :: 0 <= i < |xs| ==> FilterMap(f, xs)[i] == f(xs[i]).value
    decreases |xs|
  {
    if |xs| > 0 {
      FilterMapKeepsLengthIffAllAccepted(f, xs[1..]);
      if forall i :: 0 <= i < |xs[1..]| ==> f(xs[1..][i]).Some? {
        if f(xs[0]).Some? {
          forall i | 0 <= i < |xs| ensures f(xs[i]).Some? {
            if i > 0 { assert xs[i] == xs[1..][i - 1]; }
          }
        }
      } else {
        var i :| 0 <= i < |xs[1..]| && f(xs[1..][i]).None?;
        assert f(xs[i + 1]).None?;
      }
      if forall i :: 0 <= i < |xs| ==> f(xs[i]).Some? {
        forall i | 0 <= i < |xs[1..]| ensures f(xs[1..][i]).Some? {
          assert xs[1..][i] == xs[i + 1];
        }
      }
    }
  }

  /** The positions `base + i` of the entries of `xs` that the factory accepts,
      in increasing order. */
  function AcceptedPositions<A, B>(f: A -> Option<B>, xs: seq<A>, base: nat): seq<nat>
    decreases |xs|
  {
    if |xs| == 0 then []
    else (if f(xs[0]).Some? then [base] else []) + AcceptedPositions(f, xs[1..], base + 1)
  }

  /** Accepted positions are as many as the accepted items and lie inside `xs`. */
  lemma {:induction false} AcceptedPositionsInRange<A, B>(f: A -> Option<B>, xs: seq<A>, base: nat)
    ensures |AcceptedPositions(f, xs, base)| == |FilterMap(f, xs)|
    ensures forall j :: 0 <= j < |AcceptedPositions(f, xs, base)| ==>
              base <= AcceptedPositions(f, xs, base)[j] < base + |xs|
    decreases |xs|
  {
    if |xs| > 0 {
      AcceptedPositionsInRange(f, xs[1..], base + 1);
    }
  }

  /** Accepted positions strictly increase. */
  lemma {:induction false} AcceptedPositionsIncrease<A, B>(f: A -> Option<B>, xs: seq<A>, base: nat)
    ensures forall j1, j2 :: 0 <= j1 < j2 < |AcceptedPositions(f, xs, base)| ==>
              AcceptedPositions(f, xs, base)[j1] < AcceptedPositions(f, xs, base)[j2]
    decreases |xs|
  {
    if |xs| > 0 {
      AcceptedPositionsIncrease(f, xs[1..], base + 1);
      AcceptedPositionsInRange(f, xs[1..], base + 1);
    }
  }

  /** The `j`-th result item is what the factory made of the entry at the
      `j`-th accepted position. */
  lemma {:induction false} AcceptedPositionsPick<A, B>(f: A -> Option<B>, xs: seq<A>, base: nat)
    ensures |AcceptedPositions(f, xs, base)| == |FilterMap(f, xs)|
    ensures forall j :: 0 <= j < |AcceptedPositions(f, xs, base)| ==>
              var p := AcceptedPositions(f, xs, base)[j];
              base <= p < base + |xs| && f(xs[p - base]) == Some(FilterMap(f, xs)[j])
    decreases |xs|
  {
    AcceptedPositionsInRange(f, xs, base);
    if |xs| > 0 {
      var tail := xs[1..];
      AcceptedPositionsPick(f, tail, base + 1);
      var pos' := AcceptedPositions(f, tail, base + 1);
      forall j | 0 <= j < |pos'|
        ensures f(xs[pos'[j] - base]) == Some(FilterMap(f, tail)[j])
      {
        assert xs[pos'[j] - base] == tail[pos'[j] - (base + 1)];
      }
    }
  }

  /** Every accepted entry's position is listed. */
  lemma {:induction false} AcceptedPositionsCover<A, B>(f: A -> Option<B>, xs: seq<A>, base: nat)
    ensures forall i :: 0 <= i < |xs| && f(xs[i]).Some? ==> base + i in AcceptedPositions(f, xs, base)
    decreases |xs|
  {
    if |xs| > 0 {
      var tail := xs[1..];
      AcceptedPositionsCover(f, tail, base + 1);
      forall i | 0 <= i < |xs| && f(xs[i]).Some?
        ensures base + i in AcceptedPositions(f, xs, base)
      {
        if i > 0 {
          assert tail[i - 1] == xs[i];
        }
      }
    }
  }

  /** The result of filter-map is the accepted entries' items read off at
      strictly increasing positions, and every accepted entry is among them:
      relative order is preserved and nothing accepted is lost. */
  lemma FilterMapPreservesOrder<A, B>(f: A -> Option<B>, xs: seq<A>)
    ensures var r, pos := FilterMap(f, xs), AcceptedPositions(f, xs, 0);
      && |pos| == |r|
      && (forall j :: 0 <= j < |pos| ==> pos[j] < |xs| && f(xs[pos[j]]) == Some(r[j]))
      && (forall j1, j2 :: 0 <= j1 < j2 < |pos| ==> pos[j1] < pos[j2])
      && (forall i :: 0 <= i < |xs| && f(xs[i]).Some? ==> i in pos)
  {
    AcceptedPositionsPick(f, xs, 0);
    AcceptedPositionsIncrease(f, xs, 0);
    AcceptedPositionsCover(f, xs, 0);
  }
}
