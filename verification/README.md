# Selector parameter model

A Dafny model of the selector parameter of the workflow editor's node
parameters (`SelectorParameter`). A pipeline node uses it to pick one column
(single mode) or several columns (multi mode) from the data-frame schema
inferred for one of its input ports. In multi mode the selection can also be
an exclusion set. The parameter:

- builds ordered lists of selector items from its raw value and from its
  schema's default value, silently dropping entries the item factory rejects;
- serialises itself to a wire value (`null`, one item's wire form, or
  `{excluding, selections}`);
- validates itself (single mode with more than one item fails; otherwise every
  item must pass its own check);
- re-derives `dataFrameSchema` from the owning node's incoming knowledge on
  construction and on `refresh`.

The parameter is modelled as an immutable record (`SelectorParameter.Selector`)
and every operation as a pure function. JavaScript values are the `JsValues.Json`
datatype. Truthiness (`if (value)`), own-property reads and counted loops over
`length` are spelled out explicitly there. The item factory, an item's
`serialize()` and an item's `validate()` are not part of this model. They are
carried as uninterpreted functions in `SelectorItems.ItemKit`. The node's
`getIncomingKnowledge` is an uninterpreted function too (`Knowledge.Node`).

Files:

- `wrappers.dfy`: `Option` and `Result`.
- `js_values.dfy`: JavaScript values, truthiness, property reads, array-like iteration.
- `selector_items.dfy`: the item kit and the item-list operations (filter-map, wire forms, conjunction of checks), with their lemmas.
- `knowledge.dfy`: the node's inferred port knowledge.
- `selector_parameter.dfy`: the parameter: construction, `initItems`, the two item builders, `serialize`, `validate`, `setDataFrameSchema`, `refresh`.
- `selector_properties.dfy`: lemmas relating the operations.

## Model

| member | source | states |
|---|---|---|
| SelectorParameter.Construct | deepsense-node-parameters/src/common-parameters/common-selector/common-selector-parameter.js:6-29 | Construction fails exactly when a multi-mode parameter has a truthy default whose `selections` is null or undefined (reading its `length` throws). Otherwise it keeps name and schema. A falsy value gives no items. In single mode a truthy value gives the factory's item for it, if accepted, so at most one item. In multi mode a truthy value gives the multi-mode builder's items; for an array these are the factory's accepted items in order. Default items are set exactly when the default is truthy. In single mode they are built from the default itself, in multi mode from `default.selections`. In multi mode `excluding` is the options' own `excluding`, else false. `defaultExcluding` is the default's own `excluding`, else false. In single mode both flags stay undefined. The resulting state is a fixpoint of `setDataFrameSchema`, so its schema comes from the node. |
| SelectorParameter.InitItems | deepsense-node-parameters/src/common-parameters/common-selector/common-selector-parameter.js:34-47 | A falsy value gives no items. A truthy value gives the single-mode builder's items in single mode and the multi-mode builder's items in multi mode. A falsy default leaves the default items unset. A truthy default sets them: built from the default itself in single mode, from `default.selections` in multi mode. The call fails exactly in multi mode with a truthy default whose `selections` is nullish. |
| SelectorParameter.CreateSingleSelectorItems | deepsense-node-parameters/src/common-parameters/common-selector/common-selector-parameter.js:49-56 | The result holds at most one item. It holds one exactly when the factory accepts the value, and that item is the factory's. |
| SelectorParameter.CreateMultiSelectorItems | deepsense-node-parameters/src/common-parameters/common-selector/common-selector-parameter.js:58-67 | Fails exactly for a nullish list. For an array it is the filter-map of the factory over the elements. A boolean, number or object gives no items. The result is never longer than the entries visited. |
| SelectorItems.FilterMap | deepsense-node-parameters/src/common-parameters/common-selector/common-selector-parameter.js:58-67 | The accepted items are never more than the entries. |
| SelectorItems.FilterMapAppend | deepsense-node-parameters/src/common-parameters/common-selector/common-selector-parameter.js:58-67 | Building from a concatenation is the concatenation of the two builds, so relative order is kept. |
| SelectorItems.FilterMapSingleton | deepsense-node-parameters/src/common-parameters/common-selector/common-selector-parameter.js:61-64 | A one-entry list gives the factory's item if accepted, nothing otherwise. |
| SelectorItems.FilterMapKeepsLengthIffAllAccepted | deepsense-node-parameters/src/common-parameters/common-selector/common-selector-parameter.js:58-67 | The result has the input's length if and only if every entry is accepted. In that case the k-th item is the factory's item for the k-th entry. |
| SelectorItems.AcceptedPositionsInRange | deepsense-node-parameters/src/common-parameters/common-selector/common-selector-parameter.js:60-64 | There are as many accepted positions as result items, and each lies inside the input. |
| SelectorItems.AcceptedPositionsIncrease | deepsense-node-parameters/src/common-parameters/common-selector/common-selector-parameter.js:60-64 | Accepted positions strictly increase. |
| SelectorItems.AcceptedPositionsPick | deepsense-node-parameters/src/common-parameters/common-selector/common-selector-parameter.js:60-64 | The j-th result item is the factory's item for the entry at the j-th accepted position. |
| SelectorItems.AcceptedPositionsCover | deepsense-node-parameters/src/common-parameters/common-selector/common-selector-parameter.js:60-64 | Every accepted entry's position is among the accepted positions. |
| SelectorItems.FilterMapPreservesOrder | deepsense-node-parameters/src/common-parameters/common-selector/common-selector-parameter.js:58-67 | The result is read off the accepted entries at strictly increasing positions, and no accepted entry is lost. |
| SelectorProperties.SingleIsFilterMapOfOne | deepsense-node-parameters/src/common-parameters/common-selector/common-selector-parameter.js:49-67 | Single-mode building equals multi-mode building of the one-entry list. |
| SelectorProperties.MalformedEntryDropped | deepsense-node-parameters/src/common-parameters/common-selector/common-selector-parameter.js:58-67 | In a three-entry list whose middle entry is rejected, the other two items are kept in order. |
| SelectorItems.SerializeAll | deepsense-node-parameters/src/common-parameters/common-selector/common-selector-parameter.js:80-82 | The wire list has the items' length, and its k-th entry is the k-th item's wire form. |
| SelectorParameter.Serialize | deepsense-node-parameters/src/common-parameters/common-selector/common-selector-parameter.js:69-90 | Single mode gives `null` with no items, else the first item's wire form; later items are ignored. Multi mode gives `null` if and only if `excluding` is falsy and there are no items. Otherwise it gives an object with exactly the keys `excluding` (the flag) and `selections` (an array of the items' wire forms, same length, same order). |
| SelectorProperties.SingleWireNullIffEmpty | deepsense-node-parameters/src/common-parameters/common-selector/common-selector-parameter.js:70-73 | If no item's wire form is `null`, single mode serialises to `null` exactly when it has no items. |
| SelectorProperties.EmptyMultiSelectionWire | deepsense-node-parameters/src/common-parameters/common-selector/common-selector-parameter.js:74-89 | An empty multi selection serialises to `null` when including and to `{excluding: true, selections: []}` when excluding. |
| SelectorProperties.WireIsNotAMultiValue | deepsense-node-parameters/src/common-parameters/common-selector/common-selector-parameter.js:34-38 | A non-null multi-mode wire value, fed back as the constructor's `value`, yields no items whenever construction succeeds: the constructor iterates `value` itself, not its `selections`. |
| SelectorProperties.FilterMapInvertsSerializeAll | deepsense-node-parameters/src/common-parameters/common-selector/common-selector-parameter.js:58-82 | If the factory rebuilds each item from its wire form, building from the wire list returns the items. |
| SelectorProperties.WireRoundTripsAsDefault | deepsense-node-parameters/src/common-parameters/common-selector/common-selector-parameter.js:21-45 | Under that factory hypothesis, a non-null multi-mode wire value used as `schema.default` gives back the items as default items and the flag as the default flag. This is because the default path reads `selections`. |
| SelectorItems.AllValid | deepsense-node-parameters/src/common-parameters/common-selector/common-selector-parameter.js:96-103 | The loop's verdict is true if and only if every item passes its own check. |
| SelectorParameter.Validate | deepsense-node-parameters/src/common-parameters/common-selector/common-selector-parameter.js:92-105 | Single mode with more than one item is invalid. Otherwise the verdict is true if and only if every item is valid, so no items is valid. |
| SelectorProperties.ConstructedSingleValidatesByItems | deepsense-node-parameters/src/common-parameters/common-selector/common-selector-parameter.js:49-56 | Single-mode construction always succeeds and never trips the over-population guard. Its verdict is exactly that of its items. |
| SelectorParameter.SetDataFrameSchema | deepsense-node-parameters/src/common-parameters/common-selector/common-selector-parameter.js:107-118 | Only `dataFrameSchema` changes. It becomes the inferred result's schema when the node has knowledge with a result for the parameter's port, and undefined otherwise. |
| SelectorParameter.Refresh | deepsense-node-parameters/src/common-parameters/common-selector/common-selector-parameter.js:120-122 | Name, schema, items, default items, `excluding` and `defaultExcluding` are unchanged. `dataFrameSchema` is re-derived from the node. |
| SelectorProperties.RefreshForgetsPriorSchema | deepsense-node-parameters/src/common-parameters/common-selector/common-selector-parameter.js:107-122 | The refreshed state does not depend on the schema held before, and refreshing twice equals refreshing once. |
| SelectorProperties.RefreshKeepsWireAndVerdict | deepsense-node-parameters/src/common-parameters/common-selector/common-selector-parameter.js:120-122 | Refreshing changes neither the wire value nor the validation verdict. |
| SelectorProperties.ConstructIgnoresOptionsSchema | deepsense-node-parameters/src/common-parameters/common-selector/common-selector-parameter.js:13-28 | The `dataFrameSchema` given in the options has no effect on the constructed parameter. |
| JsValues.ArrayLikeEntries | deepsense-node-parameters/src/common-parameters/common-selector/common-selector-parameter.js:60-61 | Reading `length` fails exactly on null or undefined. An array yields its elements, a string one string per character (a Unicode scalar value, see Left out), and any other value nothing. |

## Notes on the source

- Construction can throw. In multi mode, a truthy `schema.default` whose `selections` is missing or null makes `_createMultiSelectorItems` read `length` of it (`:45`, `:60`), which throws a `TypeError`. `Construct` returns `Failure(TypeError(...))` in exactly that case.
- Single-mode `serialize` returns `items[0].serialize()` whenever there is an item (`:71-73`). So "`null` exactly when there are no items" holds only if no item serialises to `null`. `SelectorProperties.SingleWireNullIffEmpty` proves it under that hypothesis.
- No constructor/serialise round trip is stated. The constructor iterates a multi-mode `value` directly (`:38`, `:60`), while the wire value nests the list under `selections` (`:75-82`); see `SelectorProperties.WireIsNotAMultiValue`. Only the default-value path reads `selections` (`:45`).

## Left out

- The item factory and the concrete item variants (`common-selector-items/*`) are not part of this model. They are the uninterpreted functions of `SelectorItems.ItemKit`. No factory round trip is claimed. `SelectorProperties.WireRoundTripsAsDefault` takes one as a hypothesis.
- An item's `validate()` is a fixed function of the item. Whether a concrete item consults the bound data-frame schema is not visible, so the model cannot state it.
- `GenericParameter` and the prototype plumbing (`:31-32`), and the `factoryItem` field: the kit is passed as a parameter instead.
- In single mode the source never assigns `excluding`/`defaultExcluding`, so whatever the prototype provides is read. The model records them as `Undefined`.
- The source mutates `this`. The model returns a new record from each operation.
- `node.getIncomingKnowledge` and the type-inference engine behind it are an uninterpreted input (`Knowledge.Node`).
- Property reads consider own properties only (no inherited `selections` or `excluding`).
- JavaScript numbers are integers here: NaN, `-0` and fractions are not modelled. `schema.isSingle` is a boolean and `schema.portIndex` an integer.
- JsValues.ArrayLikeEntries: an object with an own numeric `length` property (an array-like object) is treated as having no entries. The source would visit its index properties.
- JsValues.ArrayLikeEntries: a string is split into Unicode scalar values, because a Dafny `string` holds those. JavaScript's loop visits UTF-16 code units, so a character outside the Basic Multilingual Plane is one entry here and two lone surrogates in the source. A lone surrogate cannot be a Dafny `string` element.
- The graph-node canvas controller and the dynamic-parameter attribute directive are presentation code with no modellable logic.
