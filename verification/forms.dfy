/** The form-node modal's logic: the validity test, the per-field change
    handler, saving the modal back into the node list or reporting field
    errors, and the effect that prunes errors the user has since fixed. */
module Forms {

  import opened Wrappers
  import opened Strings
  import opened Seqs
  import opened Types
  import opened ErrorKeys

  // ---------------------------------------------------------------- formIsValid

  /** `fields.findIndex(field => field.name.trim() === '')`: the first field
      with a blank name, or -1. */
  function BlankNameIndex(fields: seq<FormField>): (r: int)
    ensures -1 <= r < |fields|
    ensures r == -1 <==> forall i :: 0 <= i < |fields| ==> !IsBlank(fields[i].name)
    ensures r >= 0 ==> IsBlank(fields[r].name) && forall j :: 0 <= j < r ==> !IsBlank(fields[j].name)
  {
    if |fields| == 0 then -1
    else
      TrimEmptyIffBlank(fields[0].name);
      if Trim(fields[0].name) == "" then 0
      else
        var rest := fields[1..];
        var r := BlankNameIndex(rest);
        if r == -1 then
          assert forall i :: 0 <= i < |fields| ==> !IsBlank(fields[i].name) by {
            forall i | 1 <= i < |fields| ensures fields[i] == rest[i - 1] { }
          }
          -1
        else
          assert fields[r + 1] == rest[r];
          assert forall j :: 0 <= j < r + 1 ==> !IsBlank(fields[j].name) by {
            forall j | 1 <= j < r + 1 ensures fields[j] == rest[j - 1] { }
          }
          r + 1
  }

  /** `formIsValid`: there are fields, every name is non-blank, and the
      error list is empty or missing. The field types play no part. */
  predicate FormIsValid(m: ModalData)
    ensures FormIsValid(m) <==>
              && m.fields.Some? && |m.fields.value| > 0
              && (forall i :: 0 <= i < |m.fields.value| ==> !IsBlank(m.fields.value[i].name))
              && (m.errors == None || m.errors == Some([]))
  {
    var hasNames := m.fields.Some? && BlankNameIndex(m.fields.value) == -1;
    var hasFields := m.fields.Some? && |m.fields.value| > 0;
    var noErrors := (m.errors.Some? && |m.errors.value| == 0) || m.errors == None;
    hasNames && noErrors && hasFields
  }

  // ---------------------------------------------------------------- handleChange

  /** A property value of a field: a string, or the `required` flag. */
  datatype PropValue = Text(text: string) | Flag(flag: bool)

  /** `field[key]`, or `undefined`. */
  function Lookup(f: FormField, key: string): Option<PropValue> {
    if key == "id" then Some(Text(f.id))
    else if key == "name" then Some(Text(f.name))
    else if key == "type" then Some(Text(f.fieldType))
    else if key == "required" then Some(Flag(f.required))
    else if key in f.extra then Some(Text(f.extra[key]))
    else None
  }

  /** `g` is `f` with property `key` set to `v` and nothing else changed. */
  ghost predicate UpdatedOnly(f: FormField, g: FormField, key: string, v: PropValue) {
    Lookup(g, key) == Some(v) && forall k :: k != key ==> Lookup(g, k) == Lookup(f, k)
  }

  /** `{ ...field, [key]: value }` for a string-valued property. */
  function SetProperty(f: FormField, key: string, value: string): (g: FormField)
    requires key != "required"
    ensures UpdatedOnly(f, g, key, Text(value))
    ensures WellFormedField(f) ==> WellFormedField(g)
  {
    if key == "id" then f.(id := value)
    else if key == "name" then f.(name := value)
    else if key == "type" then f.(fieldType := value)
    else f.(extra := f.extra[key := value])
  }

  /** The field after a change event of kind `kind` (the `required`
      checkbox, or a named string property). */
  function ChangedField(f: FormField, kind: string, value: string, checked: bool): FormField {
    if kind == "required" then f.(required := checked) else SetProperty(f, kind, value)
  }

  /** The value a change event of kind `kind` writes. */
  function ChangeValue(kind: string, value: string, checked: bool): PropValue {
    if kind == "required" then Flag(checked) else Text(value)
  }

  /** `fields.map(f => f.id === fieldId ? changed(f) : f)`. */
  function MapMatching(fields: seq<FormField>, fieldId: string, kind: string, value: string, checked: bool)
    : (r: seq<FormField>)
    ensures |r| == |fields|
    ensures forall i :: 0 <= i < |fields| && fields[i].id != fieldId ==> r[i] == fields[i]
    ensures forall i :: 0 <= i < |fields| && fields[i].id == fieldId ==>
              UpdatedOnly(fields[i], r[i], kind, ChangeValue(kind, value, checked))
  {
    if |fields| == 0 then []
    else
      var f := fields[0];
      var g := if f.id == fieldId then ChangedField(f, kind, value, checked) else f;
      [g] + MapMatching(fields[1..], fieldId, kind, value, checked)
  }

  /** The field at position `i` after the map. */
  lemma {:induction false} MapMatchingAt(fields: seq<FormField>, fieldId: string, kind: string, value: string, checked: bool, i: int)
    requires 0 <= i < |fields|
    ensures MapMatching(fields, fieldId, kind, value, checked)[i] ==
              (if fields[i].id == fieldId then ChangedField(fields[i], kind, value, checked) else fields[i])
    decreases i
  {
    if i > 0 {
      MapMatchingAt(fields[1..], fieldId, kind, value, checked, i - 1);
    }
  }

  /** `handleChange(e, kind, fieldId)`: with an empty kind nothing happens;
      otherwise the field list (a missing one read as `[]`) keeps its length
      and order, fields with another id are untouched, and each field with
      id `fieldId` gets property `kind` set (`required` to the checkbox state,
      any other kind to the event's value) and nothing else changed. */
  function HandleChange(m: ModalData, kind: string, fieldId: string, value: string, checked: bool)
    : (r: ModalData)
    ensures kind == "" ==> r == m
    ensures kind != "" ==> r.fields.Some? && r == m.(fields := r.fields)
    ensures kind != "" ==> |r.fields.value| == |FieldsOr(m)|
    ensures kind != "" ==> forall i :: 0 <= i < |FieldsOr(m)| ==>
              var f, g := FieldsOr(m)[i], r.fields.value[i];
              (f.id != fieldId ==> g == f)
              && (f.id == fieldId ==> UpdatedOnly(f, g, kind, ChangeValue(kind, value, checked)))
  {
    if kind == "" then m
    else m.(fields := Some(MapMatching(FieldsOr(m), fieldId, kind, value, checked)))
  }

  // ---------------------------------------------------------------- handleSaveChanges

  const NoFieldsMessage := "At least one field is required."
  const NameRequiredMessage := "This field is required."
  const TypeRequiredMessage := "Field type is required."

  const NoFieldsError := FieldError(NoneKey, NoFieldsMessage)

  function NameError(id: string): FieldError {
    FieldError(NameKey(id), NameRequiredMessage)
  }

  function TypeError(id: string): FieldError {
    FieldError(TypeKey(id), TypeRequiredMessage)
  }

  /** The errors one field contributes: its name error if the name is
      missing or blank, then its type error if no type is chosen. */
  function FieldErrorsOf(f: FormField): (r: seq<FieldError>)
    ensures r == (if IsBlank(f.name) then [NameError(f.id)] else []) + (if f.fieldType == "" then [TypeError(f.id)] else [])
  {
    TrimEmptyIffBlank(f.name);
    var nameErrors := if f.name == "" || Trim(f.name) == "" then [NameError(f.id)] else [];
    var typeErrors := if f.fieldType == "" then [TypeError(f.id)] else [];
    nameErrors + typeErrors
  }

  /** A field reports a name error exactly when its name is blank, a type
      error exactly when no type is chosen, and nothing else. */
  lemma FieldErrorsOfMembers(f: FormField)
    ensures NameError(f.id) in FieldErrorsOf(f) <==> IsBlank(f.name)
    ensures TypeError(f.id) in FieldErrorsOf(f) <==> f.fieldType == ""
    ensures forall e :: e in FieldErrorsOf(f) ==> e == NameError(f.id) || e == TypeError(f.id)
  {
    assert NameRequiredMessage[0] != TypeRequiredMessage[0];
    assert NameError(f.id) != TypeError(f.id);
  }

  /** `e` is the error reporting what field `f` lacks: its name or its type. */
  predicate Reports(f: FormField, e: FieldError) {
    (e == NameError(f.id) && IsBlank(f.name)) || (e == TypeError(f.id) && f.fieldType == "")
  }

  /** Each field's errors in turn, concatenated. */
  function PerFieldErrors(fields: seq<FormField>): seq<FieldError> {
    if |fields| == 0 then [] else FieldErrorsOf(fields[0]) + PerFieldErrors(fields[1..])
  }

  /** The per-field list of a concatenation is the concatenation of the
      per-field lists: errors come in field order. */
  lemma {:induction false} PerFieldErrorsAppend(a: seq<FormField>, b: seq<FormField>)
    ensures PerFieldErrors(a + b) == PerFieldErrors(a) + PerFieldErrors(b)
  {
    if |a| > 0 {
      var ab := a + b;
      assert ab[0] == a[0];
      assert ab[1..] == a[1..] + b;
      var x, y, z := FieldErrorsOf(a[0]), PerFieldErrors(a[1..]), PerFieldErrors(b);
      assert PerFieldErrors(ab) == x + PerFieldErrors(a[1..] + b);
      PerFieldErrorsAppend(a[1..], b);
      assert PerFieldErrors(a) == x + y;
      assert x + (y + z) == (x + y) + z;
    } else {
      assert a + b == b;
    }
  }

  lemma {:induction false} PerFieldErrorsComplete(fields: seq<FormField>)
    ensures forall i, e :: 0 <= i < |fields| && e in FieldErrorsOf(fields[i]) ==> e in PerFieldErrors(fields)
  {
    if |fields| > 0 {
      PerFieldErrorsComplete(fields[1..]);
      forall i | 1 <= i < |fields| ensures fields[i] == fields[1..][i - 1] { }
    }
  }

  lemma {:induction false} PerFieldErrorsSound(fields: seq<FormField>)
    ensures forall e :: e in PerFieldErrors(fields) ==> exists i :: 0 <= i < |fields| && e in FieldErrorsOf(fields[i])
  {
    if |fields| > 0 {
      var head, tail := FieldErrorsOf(fields[0]), fields[1..];
      PerFieldErrorsSound(tail);
      assert PerFieldErrors(fields) == head + PerFieldErrors(tail);
      forall e | e in head + PerFieldErrors(tail) ensures exists i :: 0 <= i < |fields| && e in FieldErrorsOf(fields[i]) {
        if e in head {
          assert e in FieldErrorsOf(fields[0]);
        } else {
          var j :| 0 <= j < |tail| && e in FieldErrorsOf(tail[j]);
          assert tail[j] == fields[j + 1];
        }
      }
    }
  }

  /** The error list an invalid save produces: `none` first when there are
      no fields, then for each field in order its name and type errors. */
  function SaveErrors(fields: seq<FormField>): (r: seq<FieldError>)
    ensures |fields| == 0 ==> r == [NoFieldsError]
    ensures |fields| > 0 ==> r == PerFieldErrors(fields)
    ensures forall i :: 0 <= i < |fields| && IsBlank(fields[i].name) ==> NameError(fields[i].id) in r
    ensures forall i :: 0 <= i < |fields| && fields[i].fieldType == "" ==> TypeError(fields[i].id) in r
    ensures forall e :: e in r ==>
              (e == NoFieldsError && |fields| == 0) || exists i :: 0 <= i < |fields| && Reports(fields[i], e)
  {
    PerFieldErrorsComplete(fields);
    PerFieldErrorsSound(fields);
    forall i | 0 <= i < |fields|
      ensures IsBlank(fields[i].name) ==> NameError(fields[i].id) in FieldErrorsOf(fields[i])
      ensures fields[i].fieldType == "" ==> TypeError(fields[i].id) in FieldErrorsOf(fields[i])
      ensures forall e :: e in FieldErrorsOf(fields[i]) ==> Reports(fields[i], e)
    {
      FieldErrorsOfMembers(fields[i]);
    }
    (if |fields| == 0 then [NoFieldsError] else []) + PerFieldErrors(fields)
  }

  /** Adding a field at the end adds its errors, name before type, at the
      end of the reported list. */
  lemma SaveErrorsAppend(fields: seq<FormField>, f: FormField)
    requires |fields| > 0
    ensures SaveErrors(fields + [f]) == SaveErrors(fields) + FieldErrorsOf(f)
  {
    PerFieldErrorsAppend(fields, [f]);
    assert PerFieldErrors([f]) == FieldErrorsOf(f) + PerFieldErrors([]);
    assert FieldErrorsOf(f) + [] == FieldErrorsOf(f);
  }

  /** An invalid save reports nothing exactly when there are fields and
      every one has a non-blank name and a chosen type. */
  lemma SaveErrorsEmptyIff(fields: seq<FormField>)
    ensures SaveErrors(fields) == [] <==>
              |fields| > 0 && forall i :: 0 <= i < |fields| ==> !IsBlank(fields[i].name) && fields[i].fieldType != ""
  {
    var r := SaveErrors(fields);
    if r != [] {
      assert r[0] in r;
    }
  }

  /** The part of the editor state a form save touches. */
  datatype FormSaveState = FormSaveState(nodes: seq<Node>, modal: ModalData, showModal: bool)

  /** The node `n` after saving modal `m` into it: label, fields and the
      sanitised custom name replace those of its payload. */
  function SavedInto(n: Node, m: ModalData, sanitise: string -> string): Node {
    n.(data := n.data.(customName := Some(sanitise(m.customName)), labelText := Some(m.labelText), fields := m.fields))
  }

  function SaveNodes(nodes: seq<Node>, m: ModalData, sanitise: string -> string): (r: seq<Node>)
    ensures |r| == |nodes|
    ensures forall i :: 0 <= i < |nodes| ==>
              r[i] == (if m.id == Some(nodes[i].id) then SavedInto(nodes[i], m, sanitise) else nodes[i])
  {
    if |nodes| == 0 then []
    else
      [if m.id == Some(nodes[0].id) then SavedInto(nodes[0], m, sanitise) else nodes[0]]
      + SaveNodes(nodes[1..], m, sanitise)
  }

  /** `handleSaveChanges`. A valid modal is written into every node whose id
      is the modal's id (its label, fields and sanitised custom name; id,
      type, position and other payload keys kept), all other nodes and the
      node count are unchanged, and the modal is closed. An invalid modal
      leaves the nodes alone and replaces the error list by `SaveErrors`; a
      missing field list at that point throws. `sanitise` stands for
      `sanitisedStringInput`. */
  function HandleSaveChanges(st: FormSaveState, sanitise: string -> string): (r: Result<FormSaveState>)
    ensures FormIsValid(st.modal) ==>
              && r.Ok? && !r.value.showModal && r.value.modal == st.modal
              && |r.value.nodes| == |st.nodes|
              && forall i :: 0 <= i < |st.nodes| ==>
                   var n, n' := st.nodes[i], r.value.nodes[i];
                   (st.modal.id != Some(n.id) ==> n' == n)
                   && (st.modal.id == Some(n.id) ==>
                         && n'.id == n.id && n'.nodeType == n.nodeType && n'.position == n.position
                         && n'.data.labelText == Some(st.modal.labelText)
                         && n'.data.fields == st.modal.fields
                         && n'.data.customName == Some(sanitise(st.modal.customName))
                         && n'.data.blockType == n.data.blockType)
    ensures !FormIsValid(st.modal) && st.modal.fields == None ==> r.Thrown?
    ensures !FormIsValid(st.modal) && st.modal.fields.Some? ==>
              r == Ok(st.(modal := st.modal.(errors := Some(SaveErrors(st.modal.fields.value)))))
  {
    if FormIsValid(st.modal) then
      Ok(FormSaveState(SaveNodes(st.nodes, st.modal, sanitise), st.modal, false))
    else if st.modal.fields == None then
      Thrown("Cannot read properties of undefined (reading 'length')")
    else
      Ok(st.(modal := st.modal.(errors := Some(SaveErrors(st.modal.fields.value)))))
  }

  /** An invalid save, with no field edited in between, is followed by an
      invalid save: the new errors make the next `formIsValid` fail unless
      the save produced none. */
  lemma RejectedSaveStaysRejected(st: FormSaveState, sanitise: string -> string)
    requires !FormIsValid(st.modal) && st.modal.fields.Some?
    requires SaveErrors(st.modal.fields.value) != []
    ensures HandleSaveChanges(st, sanitise).Ok?
    ensures !FormIsValid(HandleSaveChanges(st, sanitise).value.modal)
  {
  }

  // ---------------------------------------------------------------- error pruning

  /** The first filter of the effect: an error whose key, read with
      `split('_')`, names a field that exists and whose named property is
      now filled in. */
  predicate FixedByEdit(e: FieldError, fields: seq<FormField>) {
    var current := FindField(fields, KeyId(e.field));
    var property := KeyProperty(e.field);
    current.Some? &&
      ((property == Some("name") && Trim(current.value.name) != "")
       || (property == Some("type") && current.value.fieldType != ""))
  }

  /** The second filter: the `none` error once there are fields. */
  predicate NoneResolved(e: FieldError, fields: Option<seq<FormField>>) {
    e.field == NoneKey && fields.Some? && |fields.value| > 0
  }

  /** An error the effect drops. */
  predicate Resolved(e: FieldError, fields: Option<seq<FormField>>) {
    FixedByEdit(e, fields.GetOr([])) || NoneResolved(e, fields)
  }

  function KeepUnfixed(fields: seq<FormField>): (keep: FieldError -> bool)
    ensures forall e :: keep(e) <==> !FixedByEdit(e, fields)
  {
    e => !FixedByEdit(e, fields)
  }

  function KeepUnresolvedNone(fields: Option<seq<FormField>>): (keep: FieldError -> bool)
    ensures forall e :: keep(e) <==> !NoneResolved(e, fields)
  {
    e => !NoneResolved(e, fields)
  }

  /** The error-pruning effect of `useForms` as a function of the current
      errors and fields: nothing happens unless there are errors; otherwise
      the result keeps, in their order, exactly the errors not resolved. */
  function PruneErrors(errors: Option<seq<FieldError>>, fields: Option<seq<FormField>>)
    : (r: Option<seq<FieldError>>)
    ensures errors == None || errors == Some([]) ==> r == errors
    ensures errors.Some? ==> r.Some? && IsSubsequence(r.value, errors.value)
    ensures errors.Some? ==> forall e :: e in r.value <==> e in errors.value && !Resolved(e, fields)
    ensures errors.Some? ==> forall e :: multiset(r.value)[e] == if Resolved(e, fields) then 0 else multiset(errors.value)[e]
  {
    if errors.Some? && |errors.value| > 0 then
      var fs := fields.GetOr([]);
      var keep1 := KeepUnfixed(fs);
      var keep2 := KeepUnresolvedNone(fields);
      FilterFilter(errors.value, keep1, keep2);
      FilterMembers(errors.value, Both(keep1, keep2));
      FilterSubsequence(errors.value, Both(keep1, keep2));
      FilterCount(errors.value, Both(keep1, keep2));
      Some(Filter(Filter(errors.value, keep1), keep2))
    else errors
  }

  /** Pruning twice with the same fields is pruning once. */
  lemma PruneIdempotent(errors: Option<seq<FieldError>>, fields: Option<seq<FormField>>)
    ensures PruneErrors(PruneErrors(errors, fields), fields) == PruneErrors(errors, fields)
  {
    if errors.Some? && |errors.value| > 0 {
      var fs := fields.GetOr([]);
      var keep1 := KeepUnfixed(fs);
      var keep2 := KeepUnresolvedNone(fields);
      var once := Filter(Filter(errors.value, keep1), keep2);
      FilterFilter(errors.value, keep1, keep2);
      FilterFilter(once, keep1, keep2);
      FilterIdempotent(errors.value, Both(keep1, keep2));
    }
  }

  /** Field ids are pairwise distinct and free of `_`. */
  predicate PlainDistinctIds(fields: seq<FormField>) {
    (forall i :: 0 <= i < |fields| ==> '_' !in fields[i].id)
    && forall i, j :: 0 <= i < j < |fields| ==> fields[i].id != fields[j].id
  }

  /** With plain, distinct ids, the errors a save just produced survive the
      pruning effect that follows it: they are all still current. */
  lemma FreshErrorsSurvivePruning(fields: seq<FormField>)
    requires PlainDistinctIds(fields)
    ensures PruneErrors(Some(SaveErrors(fields)), Some(fields)) == Some(SaveErrors(fields))
  {
    var errs := SaveErrors(fields);
    forall e | e in errs ensures !Resolved(e, Some(fields)) {
      if e != NoFieldsError {
        var i :| 0 <= i < |fields| &&
                 ((e == NameError(fields[i].id) && IsBlank(fields[i].name))
                  || (e == TypeError(fields[i].id) && fields[i].fieldType == ""));
        FreshErrorNotResolved(fields, i, e);
      }
    }
    NothingResolvedKeepsAll(errs, Some(fields));
  }

  lemma FreshErrorNotResolved(fields: seq<FormField>, i: int, e: FieldError)
    requires PlainDistinctIds(fields) && 0 <= i < |fields|
    requires (e == NameError(fields[i].id) && IsBlank(fields[i].name))
             || (e == TypeError(fields[i].id) && fields[i].fieldType == "")
    ensures !Resolved(e, Some(fields))
  {
    var f := fields[i];
    KeyRoundTrip(f.id);
    FindFieldDistinct(fields, i);
    assert FindField(fields, KeyId(e.field)) == Some(f);
    assert |e.field| > 4;
    if e == NameError(f.id) {
      TrimEmptyIffBlank(f.name);
      assert KeyProperty(e.field) == Some("name");
    } else {
      assert KeyProperty(e.field) == Some("type");
    }
  }

  lemma {:induction false} FindFieldDistinct(fields: seq<FormField>, i: int)
    requires 0 <= i < |fields|
    requires forall j :: 0 <= j < i ==> fields[j].id != fields[i].id
    ensures FindField(fields, fields[i].id) == Some(fields[i])
  {
    if i > 0 {
      FindFieldDistinct(fields[1..], i - 1);
    }
  }

  lemma NothingResolvedKeepsAll(errors: seq<FieldError>, fields: Option<seq<FormField>>)
    requires forall e :: e in errors ==> !Resolved(e, fields)
    ensures PruneErrors(Some(errors), fields) == Some(errors)
  {
    if |errors| > 0 {
      var fs := fields.GetOr([]);
      FilterKeepsAll(errors, KeepUnfixed(fs));
      FilterKeepsAll(errors, KeepUnresolvedNone(fields));
    }
  }

  /** With a plain id, a name error is dropped exactly when the first field
      with that id now has a non-blank name. */
  lemma NameErrorPrunedIff(id: string, message: string, fields: seq<FormField>)
    requires '_' !in id
    ensures Resolved(FieldError(NameKey(id), message), Some(fields)) <==>
              FindField(fields, id).Some? && !IsBlank(FindField(fields, id).value.name)
  {
    KeyRoundTrip(id);
    if FindField(fields, id).Some? {
      TrimEmptyIffBlank(FindField(fields, id).value.name);
    }
  }

  /** As written: an error keyed to a field the add-field button made is
      never dropped on that field's account, in any modal whose id has the
      editor's shape: the key reads back the block id and a property that
      is `''` or the node number, never `name` or `type`. */
  lemma GeneratedFieldErrorsNeverPruned(blockId: string, number: Option<nat>, n: nat, message: string,
                                        fields: Option<seq<FormField>>)
    requires '_' !in blockId
    ensures !Resolved(FieldError(NameKey(GeneratedFieldId(NodeIdOf(blockId, number), n)), message), fields)
    ensures !Resolved(FieldError(TypeKey(GeneratedFieldId(NodeIdOf(blockId, number), n)), message), fields)
  {
    GeneratedIdKeys(blockId, number, n);
  }

  /** The discrepancy as a whole: a lone name error for a field the
      add-field button made, in any modal the editor can create, survives
      the pruning effect whatever the fields now hold. */
  lemma GeneratedNameErrorKept(blockId: string, number: Option<nat>, n: nat, fields: Option<seq<FormField>>)
    requires '_' !in blockId
    ensures var errs := [NameError(GeneratedFieldId(NodeIdOf(blockId, number), n))];
            PruneErrors(Some(errs), fields) == Some(errs)
  {
    var e := NameError(GeneratedFieldId(NodeIdOf(blockId, number), n));
    GeneratedFieldErrorsNeverPruned(blockId, number, n, NameRequiredMessage, fields);
    NothingResolvedKeepsAll([e], fields);
  }

  /** The discrepancy on a concrete input: field `form__field-1` has the name
      `email`, yet the pruning effect keeps its "name required" error. */
  lemma StaleErrorKeptExample()
    ensures var f := FormField("form__field-1", "email", "text", false, map[]);
            var errs := [NameError("form__field-1")];
            PruneErrors(Some(errs), Some([f])) == Some(errs)
  {
    var f := FormField("form__field-1", "email", "text", false, map[]);
    FirstGeneratedIds();
    assert '_' !in "form";
    GeneratedNameErrorKept("form", None, 1, Some([f]));
  }

  /** A stale error costs one save: when every field is named and typed
      but errors linger, a save only clears the error list, leaving the
      nodes and the modal's visibility alone, and the modal is then valid. */
  lemma StaleErrorsCostOneSave(st: FormSaveState, sanitise: string -> string)
    requires st.modal.fields.Some? && |st.modal.fields.value| > 0
    requires forall i :: 0 <= i < |st.modal.fields.value| ==>
               !IsBlank(st.modal.fields.value[i].name) && st.modal.fields.value[i].fieldType != ""
    requires st.modal.errors.Some? && |st.modal.errors.value| > 0
    ensures var r := HandleSaveChanges(st, sanitise);
            && r.Ok? && r.value.nodes == st.nodes && r.value.showModal == st.showModal
            && r.value.modal.errors == Some([]) && FormIsValid(r.value.modal)
  {
    SaveErrorsEmptyIff(st.modal.fields.value);
  }

  /** On the input above: the first save after the field was named only
      clears the error list; a second save writes the node. */
  lemma StaleErrorNeedsSecondSave(nodes: seq<Node>, sanitise: string -> string)
    ensures var f := FormField("form__field-1", "email", "text", false, map[]);
            var m := ModalData(Some("form"), Some("form"), "Form", "", Some([NameError("form__field-1")]), Some([f]));
            var r := HandleSaveChanges(FormSaveState(nodes, m, true), sanitise);
            && r.Ok? && r.value.showModal && r.value.nodes == nodes && r.value.modal.errors == Some([])
            && FormIsValid(r.value.modal)
  {
    var f := FormField("form__field-1", "email", "text", false, map[]);
    var m := ModalData(Some("form"), Some("form"), "Form", "", Some([NameError("form__field-1")]), Some([f]));
    assert !IsBlank(f.name) by { assert !IsWhitespace(f.name[0]); }
    StaleErrorsCostOneSave(FormSaveState(nodes, m, true), sanitise);
  }

  // ---------------------------------------------------------------- corrected pruning

  /** The intended test for the first filter: the key is `<id>_name` or
      `<id>_type`, read by its suffix, for a field that exists and whose
      property is now filled in. */
  predicate FixedByEditBySuffix(e: FieldError, fields: seq<FormField>) {
    (match KeyOwner(e.field, "name")
     case Some(id) => FindField(fields, id).Some? && !IsBlank(FindField(fields, id).value.name)
     case None => false)
    || (match KeyOwner(e.field, "type")
        case Some(id) => FindField(fields, id).Some? && FindField(fields, id).value.fieldType != ""
        case None => false)
  }

  function KeepUnfixedBySuffix(fields: seq<FormField>): (keep: FieldError -> bool)
    ensures forall e :: keep(e) <==> !FixedByEditBySuffix(e, fields)
  {
    e => !FixedByEditBySuffix(e, fields)
  }

  /** The pruning effect with keys read by suffix. */
  function PruneErrorsBySuffix(errors: Option<seq<FieldError>>, fields: Option<seq<FormField>>)
    : (r: Option<seq<FieldError>>)
    ensures errors == None || errors == Some([]) ==> r == errors
    ensures errors.Some? ==> r.Some? && IsSubsequence(r.value, errors.value)
    ensures errors.Some? ==> forall e :: e in r.value <==>
              e in errors.value && !FixedByEditBySuffix(e, fields.GetOr([])) && !NoneResolved(e, fields)
    ensures errors.Some? ==> forall e :: (multiset(r.value)[e] ==
              if FixedByEditBySuffix(e, fields.GetOr([])) || NoneResolved(e, fields) then 0 else multiset(errors.value)[e])
  {
    if errors.Some? && |errors.value| > 0 then
      var fs := fields.GetOr([]);
      var keep1 := KeepUnfixedBySuffix(fs);
      var keep2 := KeepUnresolvedNone(fields);
      FilterFilter(errors.value, keep1, keep2);
      FilterMembers(errors.value, Both(keep1, keep2));
      FilterSubsequence(errors.value, Both(keep1, keep2));
      FilterCount(errors.value, Both(keep1, keep2));
      Some(Filter(Filter(errors.value, keep1), keep2))
    else errors
  }

  /** Read by suffix, a field's name error is dropped exactly when the first
      field with its id now has a non-blank name, for every id, generated
      ids included. */
  lemma NameErrorPrunedBySuffixIff(id: string, message: string, fields: seq<FormField>)
    ensures var e := FieldError(NameKey(id), message);
            (e in PruneErrorsBySuffix(Some([e]), Some(fields)).value
             <==> !(FindField(fields, id).Some? && !IsBlank(FindField(fields, id).value.name)))
  {
    KeyOwnerRoundTrip(id);
    assert |NameKey(id)| >= 5;
  }

  /** Read by suffix, the same input loses its stale error as soon as the
      field is named, so the next save succeeds. */
  lemma StaleErrorDroppedBySuffixExample()
    ensures var f := FormField("form__field-1", "email", "text", false, map[]);
            var m := ModalData(Some("form"), Some("form"), "Form", "", Some([NameError("form__field-1")]), Some([f]));
            var m' := m.(errors := PruneErrorsBySuffix(m.errors, m.fields));
            m'.errors == Some([]) && FormIsValid(m')
  {
    var f := FormField("form__field-1", "email", "text", false, map[]);
    assert !IsBlank(f.name) by { assert !IsWhitespace(f.name[0]); }
    NameErrorPrunedBySuffixIff("form__field-1", NameRequiredMessage, [f]);
    assert FindField([f], "form__field-1") == Some(f);
    var r := PruneErrorsBySuffix(Some([NameError("form__field-1")]), Some([f]));
    assert NameError("form__field-1") !in r.value;
  }
}
