/** The selector parameter of a pipeline node: it picks one column (single
    mode) or several (multi mode, possibly as an exclusion set) from the
    data-frame schema inferred for one of the node's input ports. */
module SelectorParameter {
  import opened Wrappers
  import opened JsValues
  import opened SelectorItems
  import opened Knowledge

  /** The parameter's schema descriptor: mode, the input port whose inferred
      schema backs the selector, and the default value (`Undefined` if none). */
  datatype ParamSchema = ParamSchema(isSingle: bool, portIndex: int, default: Json)

  /** The constructor's options. `value` is `Undefined` when not given;
      `excluding` is `None` when the options have no own `excluding` key. */
  datatype Options = Options(
    name: string,
    value: Json,
    schema: ParamSchema,
    excluding: Option<Json>,
    dataFrameSchema: Json)

  /** The parameter's state. `defaultItems` is `None` while unset; `excluding`
      and `defaultExcluding` are `Undefined` in single mode, where they are
      never assigned; `dataFrameSchema` is `Undefined` when no schema is known. */
  datatype Selector<Item> = Selector(
    name: string,
    schema: ParamSchema,
    items: seq<Item>,
    defaultItems: Option<seq<Item>>,
    excluding: Json,
    defaultExcluding: Json,
    dataFrameSchema: Json)

  /** Single mode: the factory's item for `value`, if it makes one. */
  function CreateSingleSelectorItems<Item>(kit: ItemKit<Item>, value: Json): (r: seq<Item>)
    ensures |r| <= 1
    ensures |r| == 1 <==> kit.create(value).Some?
    ensures |r| == 1 ==> kit.create(value) == Some(r[0])
  {
    match kit.create(value)
    case Some(item) => [item]
    case None => []
  }

  /** Multi mode: the factory's items for the entries of `value`, in order,
      dropping the entries it rejects. Reading `length` of a nullish value throws. */
  function CreateMultiSelectorItems<Item>(kit: ItemKit<Item>, value: Json): (r: Result<seq<Item>, JsError>)
    ensures r.Failure? <==> Nullish(value)
    ensures value.Arr? ==> r == Success(FilterMap(kit.create, value.elems))
    ensures value.Bool? || value.Num? || value.Obj? ==> r == Success([])
    ensures r.Success? ==> |r.value| <= |ArrayLikeEntries(value).value|
  {
    var entries :- ArrayLikeEntries(value);
    Success(FilterMap(kit.create, entries))
  }

  /** `initItems`: the items from `value` and the default items from
      `defaultValue`; in multi mode the default's list sits under `selections`. */
  function InitItems<Item>(kit: ItemKit<Item>, value: Json, defaultValue: Json, isSingle: bool)
    : (r: Result<(seq<Item>, Option<seq<Item>>), JsError>)
    ensures !Truthy(value) && r.Success? ==> r.value.0 == []
    ensures !Truthy(defaultValue) && r.Success? ==> r.value.1.None?
    ensures r.Failure? <==>
              !isSingle && Truthy(defaultValue) && Nullish(Get(defaultValue, "selections"))
    ensures r.Success? && Truthy(value) ==>
              r.value.0 == (if isSingle then CreateSingleSelectorItems(kit, value)
                            else CreateMultiSelectorItems(kit, value).value)
    ensures r.Success? && Truthy(defaultValue) ==>
              r.value.1 == Some(if isSingle then CreateSingleSelectorItems(kit, defaultValue)
                                else CreateMultiSelectorItems(kit, Get(defaultValue, "selections")).value)
  {
    // a truthy value is never nullish, so building the items cannot throw
    var items :=
      if !Truthy(value) then []
      else if isSingle then CreateSingleSelectorItems(kit, value)
      else CreateMultiSelectorItems(kit, value).value;
    var defaultItems :-
      if !Truthy(defaultValue) then Success(None)
      else if isSingle then Success(Some(CreateSingleSelectorItems(kit, defaultValue)))
      else
        var built :- CreateMultiSelectorItems(kit, Get(defaultValue, "selections"));
        Success(Some(built));
    Success((items, defaultItems))
  }

  /** `setDataFrameSchema`: the schema is reset, then taken from the node's
      inferred result for the parameter's port when there is one. */
  function SetDataFrameSchema<Item>(p: Selector<Item>, node: Node): (r: Selector<Item>)
    ensures r == p.(dataFrameSchema := r.dataFrameSchema)
    ensures HasInferredResult(node, p.schema.portIndex) ==>
              r.dataFrameSchema == node(p.schema.portIndex).value.result.value.schema
    ensures !HasInferredResult(node, p.schema.portIndex) ==> r.dataFrameSchema == Undefined
  {
    var reset := p.(dataFrameSchema := Undefined);
    match node(p.schema.portIndex)
    case None => reset
    case Some(knowledge) =>
      match knowledge.result
      case None => reset
      case Some(details) => reset.(dataFrameSchema := details.schema)
  }

  /** The constructor. */
  function Construct<Item>(opts: Options, node: Node, kit: ItemKit<Item>): (r: Result<Selector<Item>, JsError>)
    ensures r.Failure? <==>
              !opts.schema.isSingle && Truthy(opts.schema.default)
              && Nullish(Get(opts.schema.default, "selections"))
    ensures r.Success? ==> r.value.name == opts.name && r.value.schema == opts.schema
    // items
    ensures r.Success? && !Truthy(opts.value) ==> r.value.items == []
    ensures r.Success? && opts.schema.isSingle ==> |r.value.items| <= 1
    ensures r.Success? && opts.schema.isSingle && Truthy(opts.value) ==>
              (|r.value.items| == 1 <==> kit.create(opts.value).Some?)
    ensures r.Success? && opts.schema.isSingle ==>
              r.value.items == (if Truthy(opts.value) then CreateSingleSelectorItems(kit, opts.value) else [])
    ensures r.Success? && !opts.schema.isSingle && Truthy(opts.value) ==>
              r.value.items == CreateMultiSelectorItems(kit, opts.value).value
    ensures r.Success? && !opts.schema.isSingle && opts.value.Arr? ==>
              r.value.items == FilterMap(kit.create, opts.value.elems)
    // default items
    ensures r.Success? ==> (r.value.defaultItems.Some? <==> Truthy(opts.schema.default))
    ensures r.Success? && opts.schema.isSingle && Truthy(opts.schema.default) ==>
              r.value.defaultItems == Some(CreateSingleSelectorItems(kit, opts.schema.default))
    ensures r.Success? && !opts.schema.isSingle && Truthy(opts.schema.default) ==>
              r.value.defaultItems ==
                Some(CreateMultiSelectorItems(kit, Get(opts.schema.default, "selections")).value)
    ensures r.Success? && !opts.schema.isSingle && Truthy(opts.schema.default)
            && Get(opts.schema.default, "selections").Arr? ==>
              r.value.defaultItems ==
                Some(FilterMap(kit.create, Get(opts.schema.default, "selections").elems))
    // excluding flags
    ensures r.Success? && opts.schema.isSingle ==>
              r.value.excluding == Undefined && r.value.defaultExcluding == Undefined
    ensures r.Success? && !opts.schema.isSingle ==>
              r.value.excluding == opts.excluding.GetOr(Bool(false))
    ensures r.Success? && !opts.schema.isSingle ==>
              r.value.defaultExcluding ==
                (if Truthy(opts.schema.default) && HasOwn(opts.schema.default, "excluding")
                 then opts.schema.default.fields["excluding"] else Bool(false))
    // the schema comes from the node, never from the options
    ensures r.Success? ==> r.value == SetDataFrameSchema(r.value, node)
  {
    var value := if opts.value.Undefined? then Null else opts.value;
    var defaultValue := opts.schema.default;
    var init :- InitItems(kit, value, defaultValue, opts.schema.isSingle);
    var excluding :=
      if opts.schema.isSingle then Undefined
      else opts.excluding.GetOr(Bool(false));
    var defaultExcluding :=
      if opts.schema.isSingle then Undefined
      else if Truthy(defaultValue) && HasOwn(defaultValue, "excluding") then Get(defaultValue, "excluding")
      else Bool(false);
    var p := Selector(opts.name, opts.schema, init.0, init.1, excluding, defaultExcluding, opts.dataFrameSchema);
    Success(SetDataFrameSchema(p, node))
  }

  /** `serialize`: the wire value. Single mode gives `null` or the first
      item's wire form; multi mode gives `{excluding, selections}`, except
      that an empty, non-excluding selection gives `null`. */
  function Serialize<Item>(p: Selector<Item>, kit: ItemKit<Item>): (r: Json)
    ensures p.schema.isSingle && |p.items| == 0 ==> r == Null
    ensures p.schema.isSingle && |p.items| > 0 ==> r == kit.serialize(p.items[0])
    ensures !p.schema.isSingle ==> (r == Null <==> !Truthy(p.excluding) && |p.items| == 0)
    ensures !p.schema.isSingle && r != Null ==>
              && r.Obj?
              && r.fields.Keys == {"excluding", "selections"}
              && r.fields["excluding"] == p.excluding
              && r.fields["selections"].Arr?
              && |r.fields["selections"].elems| == |p.items|
              && forall k :: 0 <= k < |p.items| ==>
                   r.fields["selections"].elems[k] == kit.serialize(p.items[k])
  {
    if p.schema.isSingle then
      if |p.items| == 0 then Null else kit.serialize(p.items[0])
    else
      var result := Obj(map["excluding" := p.excluding, "selections" := Arr(SerializeAll(kit, p.items))]);
      if !Truthy(p.excluding) && |p.items| == 0 then Null else result
  }

  /** `validate`: single mode with more than one item fails; otherwise every
      item must pass its own check. */
  function Validate<Item>(p: Selector<Item>, kit: ItemKit<Item>): (ok: bool)
    ensures p.schema.isSingle && |p.items| > 1 ==> !ok
    ensures !(p.schema.isSingle && |p.items| > 1) ==>
              (ok <==> forall k :: 0 <= k < |p.items| ==> kit.valid(p.items[k]))
  {
    if p.schema.isSingle && |p.items| > 1 then false
    else AllValid(kit, p.items)
  }

  /** `refresh`: re-derives the data-frame schema from the node and touches
      nothing else. */
  function Refresh<Item>(p: Selector<Item>, node: Node): (r: Selector<Item>)
    ensures r.name == p.name && r.schema == p.schema
    ensures r.items == p.items && r.defaultItems == p.defaultItems
    ensures r.excluding == p.excluding && r.defaultExcluding == p.defaultExcluding
    ensures HasInferredResult(node, p.schema.portIndex) ==>
              r.dataFrameSchema == node(p.schema.portIndex).value.result.value.schema
    ensures !HasInferredResult(node, p.schema.portIndex) ==> r.dataFrameSchema == Undefined
  {
    SetDataFrameSchema(p, node)
  }
}
