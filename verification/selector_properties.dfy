/** Properties that relate the selector parameter's operations to each other:
    how single mode relates to multi mode, what `refresh` leaves alone, and
    what the wire form does and does not round-trip through. */
module SelectorProperties {
  import opened Wrappers
  import opened JsValues
  import opened SelectorItems
  import opened Knowledge
  import opened SelectorParameter

  /** Single-mode construction is multi-mode construction of a one-entry list. */
  lemma SingleIsFilterMapOfOne<Item>(kit: ItemKit<Item>, value: Json)
    ensures CreateSingleSelectorItems(kit, value) == FilterMap(kit.create, [value])
  {
  }

  /** A malformed entry in the middle of a three-entry list is dropped and the
      other two keep their order. */
  lemma MalformedEntryDropped<Item>(kit: ItemKit<Item>, a: Json, b: Json, c: Json)
    requires kit.create(a).Some? && kit.create(b).None? && kit.create(c).Some?
    ensures CreateMultiSelectorItems(kit, Arr([a, b, c]))
              == Success([kit.create(a).value, kit.create(c).value])
  {
    assert [a, b, c] == [a] + [b] + [c];
    FilterMapAppend(kit.create, [a] + [b], [c]);
    FilterMapAppend(kit.create, [a], [b]);
    FilterMapSingleton(kit.create, a);
    FilterMapSingleton(kit.create, b);
    FilterMapSingleton(kit.create, c);
    assert FilterMap(kit.create, [a, b, c]) == [kit.create(a).value, kit.create(c).value];
    assert Arr([a, b, c]).elems == [a, b, c];
  }

  /** The state `refresh` leaves depends on the node only, not on the schema
      the parameter held before, and refreshing twice is refreshing once. */
  lemma RefreshForgetsPriorSchema<Item>(p: Selector<Item>, node: Node, prior: Json)
    ensures Refresh(p.(dataFrameSchema := prior), node) == Refresh(p, node)
    ensures Refresh(Refresh(p, node), node) == Refresh(p, node)
  {
  }

  /** `refresh` changes neither the wire form nor the validation verdict. */
  lemma RefreshKeepsWireAndVerdict<Item>(p: Selector<Item>, node: Node, kit: ItemKit<Item>)
    ensures Serialize(Refresh(p, node), kit) == Serialize(p, kit)
    ensures Validate(Refresh(p, node), kit) == Validate(p, kit)
  {
  }

  /** The `dataFrameSchema` passed in the options never survives construction. */
  lemma ConstructIgnoresOptionsSchema<Item>(opts: Options, node: Node, kit: ItemKit<Item>, d: Json)
    ensures Construct(opts.(dataFrameSchema := d), node, kit) == Construct(opts, node, kit)
  {
  }

  /** A constructed single-mode parameter never trips the over-population
      guard: it validates exactly when its items do. */
  lemma ConstructedSingleValidatesByItems<Item>(opts: Options, node: Node, kit: ItemKit<Item>)
    requires opts.schema.isSingle
    ensures Construct(opts, node, kit).Success?
    ensures var p := Construct(opts, node, kit).value;
      Validate(p, kit) <==> forall k :: 0 <= k < |p.items| ==> kit.valid(p.items[k])
  {
  }

  /** When no item's wire form is `null`, single mode serialises to `null`
      exactly when it holds no item. */
  lemma SingleWireNullIffEmpty<Item>(p: Selector<Item>, kit: ItemKit<Item>)
    requires p.schema.isSingle
    requires forall i :: kit.serialize(i) != Null
    ensures Serialize(p, kit) == Null <==> |p.items| == 0
  {
  }

  /** An empty multi selection: `null` when including, an empty exclusion
      set `{excluding: true, selections: []}` when excluding. */
  lemma EmptyMultiSelectionWire<Item>(name: string, port: int, node: Node, kit: ItemKit<Item>, excluding: bool)
    ensures var opts := Options(name, Arr([]), ParamSchema(false, port, Undefined), Some(Bool(excluding)), Undefined);
      && Construct(opts, node, kit).Success?
      && Serialize(Construct(opts, node, kit).value, kit) ==
           if excluding then Obj(map["excluding" := Bool(true), "selections" := Arr([])]) else Null
  {
  }

  /** The multi-mode wire form is not a constructor value: fed back as
      `value` it is an object, whose `length` reads `undefined`, so the
      rebuilt parameter holds no items whatever the original held. */
  lemma WireIsNotAMultiValue<Item>(p: Selector<Item>, kit: ItemKit<Item>, opts: Options, node: Node)
    requires !p.schema.isSingle && Serialize(p, kit) != Null
    requires !opts.schema.isSingle
    requires opts.value == Serialize(p, kit)
    ensures Construct(opts, node, kit).Success? ==> Construct(opts, node, kit).value.items == []
  {
  }

  /** When the factory rebuilds every item from its wire form, building from
      the wire forms gives the items back. */
  lemma {:induction false} FilterMapInvertsSerializeAll<Item>(kit: ItemKit<Item>, items: seq<Item>)
    requires forall i :: kit.create(kit.serialize(i)) == Some(i)
    ensures FilterMap(kit.create, SerializeAll(kit, items)) == items
    decreases |items|
  {
    if |items| > 0 {
      FilterMapInvertsSerializeAll(kit, items[1..]);
      assert SerializeAll(kit, items)[1..] == SerializeAll(kit, items[1..]);
    }
  }

  /** The multi-mode wire form does round-trip through the DEFAULT value
      path, which reads its list from `selections`: used as `schema.default`,
      it gives back the items as default items and the excluding flag as the
      default excluding flag, provided the factory rebuilds each item from
      its wire form (a hypothesis about the factory, not shown here). */
  lemma WireRoundTripsAsDefault<Item>(p: Selector<Item>, kit: ItemKit<Item>, opts: Options, node: Node)
    requires forall i :: kit.create(kit.serialize(i)) == Some(i)
    requires !p.schema.isSingle && Serialize(p, kit) != Null
    requires !opts.schema.isSingle && opts.schema.default == Serialize(p, kit)
    ensures Construct(opts, node, kit).Success?
    ensures Construct(opts, node, kit).value.defaultItems == Some(p.items)
    ensures Construct(opts, node, kit).value.defaultExcluding == p.excluding
  {
    var w := Serialize(p, kit);
    assert Get(w, "selections") == Arr(SerializeAll(kit, p.items));
    FilterMapInvertsSerializeAll(kit, p.items);
  }
}
