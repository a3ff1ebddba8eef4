# Workflow editor core, modelled in Dafny

A model of the logic behind a drag-and-drop workflow editor. Users drop
blocks (start, form, conditional, API, end) on a canvas, connect them with
edges, and configure each block in a modal. The modelled core is the part
that decides what the editor does with its data:

- **Canvas** (`Editor`, editor.dfy). Dropping a block creates a node
  (its id, label and payload), and a second start or end block is refused
  with a de-duplicated message. Saving projects the workflow configuration.
  The derived flags `hasNodes`, `hasStartNode` and `hasEndNode` are here too.
- **Form modal** (`Forms`, forms.dfy). Covers the validity test, the
  per-field change handler, and saving the modal into the node list or
  producing field errors. It also covers the effect that prunes errors the
  user has since fixed.
- **Error keys** (`ErrorKeys`, error_keys.dfy). Error keys `<fieldId>_name`
  and `<fieldId>_type` are written by appending a suffix and read back with
  `split('_')`.
- **Field list editor** (`FieldEditing`, field_editing.dfy). Adding and
  deleting fields, the error line under each input, and the values the
  inputs display.
- **Modal launch** (`Modals`, modals.dfy). The node's working copy, the
  default label, and closing.
- **Upstream field resolver** (`FlowPaths`, flow_paths.dfy). The API block
  searches backwards from its node for flow paths: chains of edges from a
  node with no incoming edge. It then offers the fields of the `form` nodes
  on those paths.
- **`toTitleCase`** (`TitleCase`, title_case.dfy).

The support modules are `Wrappers` (`Option`, `Result`), `Strings` (JS
`startsWith`, `trim`, `split`/`join`, ASCII case mapping, decimal
rendering), `Seqs` (order-preserving `filter`) and `Types` (the records).

The state handlers are pure functions from the old state to the new one.
A React state setter becomes the changed field of the returned record. A
`TypeError` the JavaScript would throw becomes `Result.Thrown`.

The backward search does not enumerate every route. It marks a node
visited the first time it is expanded, so when two routes from one root
meet, only the first reaches the root. The contract of
`FlowPaths.FindFlowPaths` states what the search does guarantee:

- every path is a repeat-free chain from a root to the target;
- no two paths share a root;
- every root that leads to the target heads some path.

It does not claim that all chains are listed.

## Model

| member | source | states |
|---|---|---|
| `FlowPaths.FindFlowPaths` | src/components/modals/BaseModal/ApiBlockForm/hooks/useApiForm.ts:14-49 | A missing or empty target, or a missing edge list, gives `[]`. Otherwise every path is a repeat-free chain of edges from a node nothing leads into, ending at the target. No two paths share a first node, every such root that reaches the target heads a path, and a target with no incoming edge gives exactly `[[target]]`. |
| `FlowPaths.Search` | src/components/modals/BaseModal/ApiBlockForm/hooks/useApiForm.ts:17-48 | The worklist loop (pop, skip visited, emit at a root, push unvisited sources) yields sound, root-distinct paths covering every root that reaches the target. |
| `FlowPaths.Incoming` | src/components/modals/BaseModal/ApiBlockForm/hooks/useApiForm.ts:28 | An edge is incoming exactly when it is in the list and ends at the node. |
| `FlowPaths.EntryEdges` | src/components/modals/BaseModal/ApiBlockForm/hooks/useApiForm.ts:10 | An edge is an entry edge exactly when it ends at the modal's node; a null modal id matches none. |
| `FlowPaths.HasEntryEdgeIff` | src/components/modals/BaseModal/ApiBlockForm/hooks/useApiForm.ts:10-12 | `hasEntryEdge` holds exactly when the modal has an id and its node is not a root. |
| `FlowPaths.Flatten` | src/components/modals/BaseModal/ApiBlockForm/hooks/useApiForm.ts:53 | `flat()` holds exactly the ids that occur on some path. |
| `FlowPaths.PreviousFormNodes` | src/components/modals/BaseModal/ApiBlockForm/hooks/useApiForm.ts:53 | An id is a previous form node exactly when it starts with `form` and lies on some flow path. |
| `FlowPaths.AvailableFormFields` | src/components/modals/BaseModal/ApiBlockForm/hooks/useApiForm.ts:55-60 | A field is offered exactly when some `form`-typed node whose id is a previous form node holds it. |
| `FlowPaths.AvailableAppend` | src/components/modals/BaseModal/ApiBlockForm/hooks/useApiForm.ts:55-60 | The reduce gathers fields in node order: the result for `a + b` is the result for `a` followed by that for `b`. |
| `FlowPaths.HasAvailableIff` | src/components/modals/BaseModal/ApiBlockForm/hooks/useApiForm.ts:61 | `hasAvailableFormFields` holds exactly when some contributing node has a non-empty field list. |
| `FlowPaths.ResolveUpstreamFields` | src/components/modals/BaseModal/ApiBlockForm/hooks/useApiForm.ts:52-61 | Without an entry edge there are no paths and no fields. With one, the paths are sound and cover every root. The offered fields are exactly those of `form` nodes on a path, and `hasAvailableFormFields` says whether any exist. |
| `Forms.BlankNameIndex` | src/components/modals/hooks/useForms.ts:12 | `findIndex` returns the first index whose name is blank, or -1 exactly when every name is non-blank. |
| `Forms.FormIsValid` | src/components/modals/hooks/useForms.ts:10-16 | The form is valid exactly when fields are present and non-empty, every name is non-blank, and errors are missing or empty. |
| `Forms.SetProperty` | src/components/modals/hooks/useForms.ts:53 | `{...f, [key]: value}` sets that one property and leaves every other property as it was. |
| `Forms.MapMatching` | src/components/modals/hooks/useForms.ts:43-54 | The map keeps length and order, leaves fields with other ids untouched, and updates each matching field only at the changed property. |
| `Forms.HandleChange` | src/components/modals/hooks/useForms.ts:32-57 | An empty kind changes nothing. Otherwise only the field list changes: a missing list is read as `[]` and keeps its length. Fields with another id are untouched. Each field with the id gets `required` set to the checkbox state, or the named property set to the event value, and nothing else. |
| `Forms.FieldErrorsOf` | src/components/modals/hooks/useForms.ts:94-101 | A field's errors are its name error if the name is blank (every character white space), then its type error if the type is `''`, in that order. |
| `Forms.FieldErrorsOfMembers` | src/components/modals/hooks/useForms.ts:94-101 | A field reports a name error exactly when its name is blank, a type error exactly when its type is `''`, and nothing else. |
| `Forms.PerFieldErrorsAppend` | src/components/modals/hooks/useForms.ts:94-101 | The per-field errors of two field lists joined are the errors of the first list followed by those of the second: errors come in field order. |
| `Forms.SaveErrors` | src/components/modals/hooks/useForms.ts:90-101 | An empty list gives exactly `[none]`; otherwise the list is each field's errors in field order. Every blank name and unchosen type is reported, and every reported error is one of these. |
| `Forms.SaveErrorsAppend` | src/components/modals/hooks/useForms.ts:90-101 | Adding a field at the end of a non-empty list adds exactly its errors, name before type, at the end. |
| `Forms.PerFieldErrorsComplete` | src/components/modals/hooks/useForms.ts:90-101 | Every error any field contributes is in the per-field list. |
| `Forms.PerFieldErrorsSound` | src/components/modals/hooks/useForms.ts:90-101 | Every error in the per-field list comes from some field. |
| `Forms.SaveErrorsEmptyIff` | src/components/modals/hooks/useForms.ts:90-101 | No error is produced exactly when there are fields and each has a non-blank name and a chosen type. |
| `Forms.SaveNodes` | src/components/modals/hooks/useForms.ts:72-85 | The node count is kept. Nodes whose id equals the modal id receive the modal's label, fields and sanitised custom name; all other nodes are unchanged. |
| `Forms.HandleSaveChanges` | src/components/modals/hooks/useForms.ts:67-104 | A valid modal is written into the matching nodes (id, type, position and other payload kept) and closed. An invalid modal with fields gets exactly `SaveErrors` as its errors, nodes untouched. An invalid modal without a field list throws. |
| `Forms.RejectedSaveStaysRejected` | src/components/modals/hooks/useForms.ts:88-102 | After a save that produced errors, the modal is still invalid, so saving again without edits is refused again. |
| `Forms.PruneErrors` | src/components/modals/hooks/useForms.ts:112-144 | Nothing happens without errors. Otherwise the result is an order-preserving subsequence holding every copy of each error not resolved by the current fields and no copy of a resolved one. |
| `Forms.PruneIdempotent` | src/components/modals/hooks/useForms.ts:115-137 | Running the effect again on unchanged fields removes nothing more. |
| `Forms.FreshErrorsSurvivePruning` | src/components/modals/hooks/useForms.ts:115-137 | With distinct ids that contain no `_`, the errors a rejected save just produced are all kept by the effect that follows. |
| `Forms.NameErrorPrunedIff` | src/components/modals/hooks/useForms.ts:115-130 | For an id without `_`, a name error is dropped exactly when the first field with that id now has a non-blank name. |
| `Forms.GeneratedFieldErrorsNeverPruned` | src/components/modals/hooks/useForms.ts:116-129 | As written: in any modal whose id has the editor's node-id shape (a `_`-free block id, alone or followed by `_<number>`), the name and type errors of a field the add-field button made are never dropped on that field's account. |
| `Forms.GeneratedNameErrorKept` | src/components/modals/hooks/useForms.ts:115-130 | As written: for a field the add-field button made in any modal whose id has the editor's node-id shape, a lone name error passes through the pruning effect unchanged, whatever the fields hold. |
| `Forms.StaleErrorKeptExample` | src/components/modals/hooks/useForms.ts:115-130 | Concrete case: field `form__field-1` named `email` keeps its "name required" error. |
| `Forms.StaleErrorsCostOneSave` | src/components/modals/hooks/useForms.ts:67-104 | Whenever every field is named and typed but errors linger, a save only clears the error list: the nodes and the modal's visibility are unchanged, and the modal is then valid. |
| `Forms.StaleErrorNeedsSecondSave` | src/components/modals/hooks/useForms.ts:67-104 | On the same input, the next save click only clears the error list and leaves the modal open with the nodes unchanged; the modal is then valid, so a second click saves. |
| `Forms.PruneErrorsBySuffix` | src/components/modals/hooks/useForms.ts:112-144 | Corrected effect: keys are read by suffix. Otherwise it has the same subsequence, membership and copy-count contract. |
| `Forms.NameErrorPrunedBySuffixIff` | src/components/modals/hooks/useForms.ts:115-130 | Corrected effect: for every id, generated ones included, a name error is dropped exactly when the first field with that id has a non-blank name. |
| `Forms.StaleErrorDroppedBySuffixExample` | src/components/modals/hooks/useForms.ts:115-130 | Corrected effect, same input: the error is dropped as soon as the field is named, and the modal is valid. |
| `ErrorKeys.KeyId` | src/components/modals/hooks/useForms.ts:116-117 | The id read from a key never contains `_`. |
| `ErrorKeys.KeyProperty` | src/components/modals/hooks/useForms.ts:118 | The property read from a key, when present, never contains `_`. |
| `ErrorKeys.KeyRoundTrip` | src/components/modals/hooks/useForms.ts:96-99 | For an id without `_`, reading `<id>_name` and `<id>_type` gives back the id and the property. |
| `ErrorKeys.UnderscoredIdNeverRead` | src/components/modals/hooks/useForms.ts:116-117 | An id containing `_` is never the id read from any key. |
| `ErrorKeys.GeneratedIdKeys` | src/components/modals/BaseModal/FormBlockForm/index.tsx:29 | For a field id `<modal>__field-<n>` where the modal id is a `_`-free block id `b`, or `b_<k>` as the editor numbers nodes: the id read back from its name and type keys is `b`. The property read back is `''` for a bare `b` and `<k>` otherwise, so never `name` or `type`. |
| `ErrorKeys.NumberText` | src/components/modals/hooks/useForms.ts:118 | The property a generated field's key reads back (`''` or a decimal number) is free of `_` and is neither `name` nor `type`. |
| `ErrorKeys.KeyOwner` | src/components/modals/hooks/useForms.ts:116-118 | Corrected reading: the owner found for a key and a property is the key with that suffix removed. |
| `ErrorKeys.KeyOwnerRoundTrip` | src/components/modals/hooks/useForms.ts:96-99 | For every id, reading by suffix gives back the id for the matching property. It gives nothing for the other property and nothing for `none`. |
| `FieldEditing.NextFieldId` | src/components/modals/BaseModal/FormBlockForm/index.tsx:29 | The next field id starts with the modal id (`null` when missing) and contains `_`. |
| `FieldEditing.AddField` | src/components/modals/BaseModal/FormBlockForm/index.tsx:28-38 | The list (missing read as `[]`) gains one field at the end: id `<modal id>__field-<count+1>`, name `''`, type `text`, not required. The earlier fields and the rest of the modal are unchanged. |
| `FieldEditing.NextFieldIdUnderscored` | src/components/modals/BaseModal/FormBlockForm/index.tsx:29 | Every generated field id contains `_`. |
| `FieldEditing.AddedFieldBlocksSave` | src/components/modals/BaseModal/FormBlockForm/index.tsx:28-33 | A freshly added field makes the form invalid until it is named. |
| `FieldEditing.DeleteField` | src/components/modals/BaseModal/FormBlockForm/CustomFieldInput/index.tsx:38-41 | Every copy of each field with another id remains, in order, and no field with the id; a missing list becomes `[]`. |
| `FieldEditing.DeleteUndoesAdd` | src/components/modals/BaseModal/FormBlockForm/CustomFieldInput/index.tsx:38-41 | Deleting a just-added field whose id no older field shares restores the list. |
| `FieldEditing.AddFieldToForm` | src/components/modals/BaseModal/FormBlockForm/index.tsx:28-38 | One click in modal `form` holding `fs` appends `form__field-<|fs|+1>` and keeps the modal id. |
| `FieldEditing.TwoAdds` | src/components/modals/BaseModal/FormBlockForm/index.tsx:28-38 | Two clicks on an empty form modal `form` give fields `form__field-1` and `form__field-2`, in that order. |
| `FieldEditing.AddAfterDeleteRepeatsId` | src/components/modals/BaseModal/FormBlockForm/index.tsx:29 | Generated ids can repeat: add two fields, delete the first, add again, and two fields share an id. |
| `FieldEditing.ErrorMessage` | src/components/modals/BaseModal/FormBlockForm/CustomFieldInput/index.tsx:54-57 | The line shows a message exactly when some error key reads as this id and property, and then it is the first such error's message. |
| `FieldEditing.AddedFieldErrorsHidden` | src/components/modals/BaseModal/FormBlockForm/CustomFieldInput/index.tsx:54-57 | As written: the error lines of a generated field are always empty. |
| `FieldEditing.SaveErrorsShown` | src/components/modals/BaseModal/FormBlockForm/CustomFieldInput/index.tsx:54-84 | After a rejected save, with distinct ids that contain no `_`, the name line shows "This field is required." exactly when the name is blank. The type line shows "Field type is required." exactly when no type is chosen. |
| `FieldEditing.ErrorMessageBySuffix` | src/components/modals/BaseModal/FormBlockForm/CustomFieldInput/index.tsx:54-57 | Corrected line: a message appears exactly when some key is `<id>_<property>`, and it is the message of the first such key. |
| `FieldEditing.SaveErrorsShownBySuffix` | src/components/modals/BaseModal/FormBlockForm/CustomFieldInput/index.tsx:54-84 | Corrected line: the same exact display for every field with a distinct id, generated ids included. |
| `FieldEditing.DisplayedName` | src/components/modals/BaseModal/FormBlockForm/CustomFieldInput/index.tsx:21-22 | The name input shows the first matching field's name, or `''` when no field has the id. |
| `FieldEditing.DisplayedRequired` | src/components/modals/BaseModal/FormBlockForm/CustomFieldInput/index.tsx:114 | The checkbox is ticked exactly when a field with the id exists and is required. |
| `FieldEditing.NameInputRoundTrip` | src/components/modals/BaseModal/FormBlockForm/CustomFieldInput/index.tsx:66 | Typing into the name input of an existing field makes the input show what was typed. |
| `FieldEditing.RequiredInputRoundTrip` | src/components/modals/BaseModal/FormBlockForm/CustomFieldInput/index.tsx:116 | Toggling the checkbox of an existing field makes it show the new state. |
| `Modals.DefaultLabel` | src/hooks/useModals.ts:22 | The default label is the node type in title case followed by ` Node`. |
| `Modals.LaunchData` | src/hooks/useModals.ts:19-26 | Id and type are kept unless empty (then null). The label is the node's own non-empty label, else the default. The custom name defaults to `''`, a missing field list becomes `[]`, and errors start empty. |
| `Modals.LaunchFormModal` | src/hooks/useModals.ts:14-29 | The modal shows the node's working copy; nodes are untouched. |
| `Modals.CloseModal` | src/hooks/useModals.ts:43 | The modal is hidden and nothing else changes. |
| `Modals.LaunchedValidIff` | src/hooks/useModals.ts:19-26 | A freshly launched modal is valid exactly when the node has fields and all are named. |
| `Modals.OpenSaveRoundTrip` | src/hooks/useModals.ts:19-26 | Opening a labelled node with fields, then saving without edits, writes the node back unchanged when the sanitiser keeps its custom name. |
| `Modals.LaunchSaveTouchesOnlyNode` | src/components/modals/hooks/useForms.ts:71-87 | Saving the modal launched on a node with a non-empty list of named fields rewrites exactly the nodes sharing the launched node's id and closes the modal. |
| `TitleCase.TwoWords` | src/lib/utilityFunctions.ts:1-5 | Two space-free words joined by one space come out as the two capitalised words joined by one space. |
| `TitleCase.ToTitleCase` | src/lib/utilityFunctions.ts:1-5 | `undefined` and `''` give `''`. Otherwise each character is upper-cased at a word start (string start or after a space) and lower-cased elsewhere, and the length is kept. |
| `TitleCase.WordsTitleCased` | src/lib/utilityFunctions.ts:3-4 | Splitting on spaces, capitalising each word and joining equals the character-wise title case. |
| `TitleCase.SpacesPreserved` | src/lib/utilityFunctions.ts:3-4 | A space appears in the output exactly where one was in the input. |
| `TitleCase.TitleCaseIdempotent` | src/lib/utilityFunctions.ts:1-5 | Title-casing an already title-cased string changes nothing. |
| `TitleCase.MixedCaseExample` | tests/lib/utilityFunctions.test.ts:17-21 | `'hElLo WoRlD'` becomes `'Hello World'`. |
| `Strings.TrimEmptyIffBlank` | src/components/modals/hooks/useForms.ts:12 | `trim()` is empty exactly when every character is white space. |
| `Strings.JoinSplit` | src/lib/utilityFunctions.ts:3-4 | Joining the parts of a split with the same separator gives back the string. |
| `Strings.SplitJoin` | src/lib/utilityFunctions.ts:3-4 | Splitting a join of separator-free parts gives back the parts. |
| `Types.FindField` | src/components/modals/BaseModal/FormBlockForm/CustomFieldInput/index.tsx:21 | `find` returns a field exactly when one has the id, and then the first such field. |
| `Editor.HasNodes` | src/contexts/WorkflowEditorContext.tsx:34 | `nodes.length > 0`; an empty canvas has neither a start nor an end node. |
| `Editor.HasNodeWithPrefix` | src/contexts/WorkflowEditorContext.tsx:35-36 | `some(n => n.id.startsWith(p))` holds exactly when some node's id starts with the prefix. |
| `Editor.InitialFlags` | src/contexts/WorkflowEditorContext.tsx:15-36 | The initial editor has no nodes, no start or end node, no errors, no dialog and no active item. |
| `Editor.HandleDragStart` | src/components/WorkflowEditor/hooks/useWorkflowEditor.ts:11-14 | The dragged block becomes the active item and nothing else changes. |
| `Editor.NewNodeId` | src/components/WorkflowEditor/hooks/useWorkflowEditor.ts:45 | On an empty canvas the id is the block id, else `<block>_<count+1>`: the node-id shape `ErrorKeys.NodeIdOf`. For any `_`-free prefix, the new id starts with it exactly when the block id does. |
| `Editor.DroppedNode` | src/components/WorkflowEditor/hooks/useWorkflowEditor.ts:74-86 | The new node has the new id, the block id as type, the drop position, and a payload with the block's label, the block id as type, no custom name and an empty field list. It starts with `start` exactly when the block id does. |
| `Editor.BlockLabel` | src/components/WorkflowEditor/hooks/useWorkflowEditor.ts:46-50 | `Start` for start blocks, else `End` for end blocks, else `New Node`. |
| `Editor.AddOnce` | src/components/WorkflowEditor/hooks/useWorkflowEditor.ts:53-54 | An already listed message leaves the list as it was; otherwise the message is appended at the end and the rest is kept. Either way it ends up listed and nothing else is added. |
| `Editor.HandleDragEnd` | src/components/WorkflowEditor/hooks/useWorkflowEditor.ts:28-90 | A second start block (checked first) or a second end block only records its message once. Without a drop target (and no refusal) the state is unchanged, errors included. Otherwise exactly one node built from the block is appended, the active item is cleared and nothing else changes. Edges and the dialog never change. |
| `Editor.DropAccepted` | src/components/WorkflowEditor/hooks/useWorkflowEditor.ts:74-89 | An unrefused drop onto the canvas adds one node of the block's type after the existing ones and clears the active item; errors, edges and the dialog are kept. |
| `Editor.DragEndKeepsSingleStartAndEnd` | src/components/WorkflowEditor/hooks/useWorkflowEditor.ts:43-61 | Drops keep at most one node whose id starts with `start` and at most one whose id starts with `end`. |
| `Editor.SecondStartRefused` | src/components/WorkflowEditor/hooks/useWorkflowEditor.ts:52-56 | After a start block is dropped, dropping another is refused and the message is listed. |
| `Editor.RefusalMessagesListedOnce` | src/components/WorkflowEditor/hooks/useWorkflowEditor.ts:53-59 | Refusals never list either message twice. |
| `Editor.HandleSave` | src/components/WorkflowEditor/hooks/useWorkflowEditor.ts:92-116 | The configuration holds the nodes and edges as they are, name `Sample Workflow` and version `1.0.0`. The save dialog opens and nothing else changes. |
| `Editor.Project` | src/components/WorkflowEditor/hooks/useWorkflowEditor.ts:94-99 | Projecting each node to id, type, position and payload loses nothing the model keeps. |

## Left out

- `sanitisedStringInput` (src/lib/validation.ts) is a function parameter
  of `Forms.HandleSaveChanges`. The HTML escaping of the `validator`
  package it calls is not part of this model.
- The drop position: `event.delta` minus the pane's bounding box is DOM
  geometry. It is passed to `Editor.HandleDragEnd` as a parameter, and
  whether a drop target exists is a boolean parameter.
- `handleSave` logs the configuration with `console.log` and stamps it with
  `new Date().toISOString()`. Logging, JSON formatting and the clock are
  left out, so the configuration has no `created` field.
- `onConnect` / `addEdge`, and the `onNodesChange`/`onEdgesChange` handlers
  from the flow library, are foreign calls. Node deletion and edge
  creation are not modelled; the edge list is an input.
- React wiring is left out: contexts, `useCallback`, and the render code.
  So is the timing of the effect, which runs after renders when the
  serialised fields or the error count change. `Forms.PruneErrors` is one
  run of it.
- `handleInputChange` (useForms.ts:24-30) is defined but never called.
- The field-type select is uncontrolled (no `value` binding), so what it
  shows is not modelled.
- Add-field reads the field count from the rendered modal but appends to
  the latest state. The model uses one state for both.
- `TitleCase.ToTitleCase`: case mapping covers ASCII letters only. Other
  letters are kept as they are, which differs from JavaScript's
  `toUpperCase`/`toLowerCase` for non-ASCII text.
- `Strings.Trim`: white space is the ASCII set, no-break space and the
  byte-order mark, not every Unicode space separator `trim` removes.
- Field names are strings. The `!field.name` test for an `undefined` name
  is not modelled apart from the empty string.
- A node payload keeps only `label`, `customName`, `fields` and `type`.
  The API block's URL, method and request body keys are read by no
  modelled operation.
- `Editor.Project`: a model node carries only id, type, position and
  payload, and a model edge only id, source, target and label. The extra
  properties the flow library puts on nodes and edges, which `handleSave`
  drops, are not modelled, so the projection is the identity here.
- `Modals.LaunchData`: `launchFormModal` with no node at all (`data`
  undefined) is not modelled; a node is always given.

## Findings

| source | as written | input that shows it | evidently intended | confidence | as-written member | corrected member |
|---|---|---|---|---|---|---|
| src/components/modals/hooks/useForms.ts:116-118 | Error keys `<fieldId>_name` are read back with `split('_')`, part 0 as the field id and part 1 as the property. Ids from the add-field button (`<modal>__field-<n>`, FormBlockForm/index.tsx:29) contain `_`. Modal ids are node ids: a block id `b` for the first node on an empty canvas, else `b_<k>` (useWorkflowEditor.ts:45). So such a key reads as id `b` with property `''` (for `b`) or `<k>` (for `b_<k>`, e.g. `form_2__field-1_name` reads as `form` and `2`), never `name` or `type`. The error is then never pruned after the user fixes the field, and the error lines (CustomFieldInput/index.tsx:54-57, 81-84) never show it. | Take a modal with field `form__field-1` named `email` and error `{field: 'form__field-1_name'}`. The effect keeps the error, so `formIsValid` stays false. The next save click does nothing visible except clear the errors, and only a second click saves. | The key is read by its suffix, so the owner is the key with `_name`/`_type` removed. | not executed | `Forms.StaleErrorKeptExample` | `Forms.NameErrorPrunedBySuffixIff` |
