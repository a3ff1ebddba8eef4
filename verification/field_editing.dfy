/** The field list editor of the form modal: the add-field button, and for
    each field its delete button, its error lines and its inputs. */
module FieldEditing {

  import opened Wrappers
  import opened Strings
  import opened Seqs
  import opened Types
  import opened ErrorKeys
  import opened Forms

  // ---------------------------------------------------------------- add / delete

  /** `${modalData.id}` inside a template literal: a null id prints as `null`. */
  function IdText(id: Option<string>): string {
    id.GetOr("null")
  }

  /** The id the add-field button gives the next field: the modal id, then
      `__field-`, then one more than the current number of fields. */
  function NextFieldId(m: ModalData): (r: string)
    ensures |IdText(m.id)| < |r| && r[..|IdText(m.id)|] == IdText(m.id) && '_' in r
  {
    var r := GeneratedFieldId(IdText(m.id), |FieldsOr(m)| + 1);
    assert r[|IdText(m.id)|] == '_';
    r
  }

  /** The add-field button: the field list (a missing one read as `[]`)
      gains one field at the end, with the next field id, an empty name,
      type `text` and not required; nothing else in the modal changes. */
  function AddField(m: ModalData): (r: ModalData)
    ensures r == m.(fields := r.fields) && r.fields.Some?
    ensures |r.fields.value| == |FieldsOr(m)| + 1
    ensures r.fields.value[..|FieldsOr(m)|] == FieldsOr(m)
    ensures r.fields.value[|FieldsOr(m)|] == FormField(NextFieldId(m), "", "text", false, map[])
  {
    var newField := FormField(NextFieldId(m), "", "text", false, map[]);
    m.(fields := Some(FieldsOr(m) + [newField]))
  }

  /** A field id made by the add-field button always contains `_`. */
  lemma NextFieldIdUnderscored(m: ModalData)
    ensures '_' in NextFieldId(m)
  {
    assert NextFieldId(m)[|IdText(m.id)|] == '_';
  }

  /** A freshly added field has a blank name, so the form cannot be saved
      until it is named. */
  lemma AddedFieldBlocksSave(m: ModalData)
    ensures !FormIsValid(AddField(m))
  {
    var fs := AddField(m).fields.value;
    assert IsBlank(fs[|fs| - 1].name);
  }

  /** A field's delete button: the list keeps, in order, exactly the fields
      with another id; a missing list becomes `[]`. */
  function DeleteField(m: ModalData, id: string): (r: ModalData)
    ensures r == m.(fields := r.fields) && r.fields.Some?
    ensures IsSubsequence(r.fields.value, FieldsOr(m))
    ensures forall f :: f in r.fields.value <==> f in FieldsOr(m) && f.id != id
    ensures forall f :: multiset(r.fields.value)[f] == if f.id == id then 0 else multiset(FieldsOr(m))[f]
  {
    FilterMembers(FieldsOr(m), OtherId(id));
    FilterSubsequence(FieldsOr(m), OtherId(id));
    FilterCount(FieldsOr(m), OtherId(id));
    m.(fields := Some(Filter(FieldsOr(m), OtherId(id))))
  }

  function OtherId(id: string): (keep: FormField -> bool)
    ensures forall f :: keep(f) <==> f.id != id
  {
    (f: FormField) => f.id != id
  }

  /** Deleting a field that was just added, when no older field shared its
      id, gives back the list as it was. */
  lemma DeleteUndoesAdd(m: ModalData)
    requires forall f :: f in FieldsOr(m) ==> f.id != NextFieldId(m)
    ensures DeleteField(AddField(m), NextFieldId(m)).fields == Some(FieldsOr(m))
  {
    var keep := OtherId(NextFieldId(m));
    var fs := FieldsOr(m);
    var newField := FormField(NextFieldId(m), "", "text", false, map[]);
    assert FieldsOr(AddField(m)) == fs + [newField];
    FilterAppend(fs, [newField], keep);
    FilterKeepsAll(fs, keep);
    assert Filter([newField], keep) == [] by {
      assert !keep(newField);
      assert [newField][1..] == [];
    }
    assert fs + [] == fs;
  }

  /** Field ids are not unique: add two fields, delete the first, add
      again, and the new field repeats the id of the one kept. */
  lemma AddAfterDeleteRepeatsId()
    ensures var m2 := AddField(AddField(EmptyFormModal));
            var m4 := AddField(DeleteField(m2, "form__field-1"));
            |m4.fields.value| == 2 && m4.fields.value[0].id == m4.fields.value[1].id
  {
    TwoAdds();
    var f2 := FormField("form__field-2", "", "text", false, map[]);
    var m2 := AddField(AddField(EmptyFormModal));
    DeleteFirstOfTwo();
    assert DeleteField(m2, "form__field-1").fields.value == [f2];
  }

  /** A form modal with no fields yet. */
  const EmptyFormModal := ModalData(Some("form"), Some("form"), "Form", "", Some([]), Some([]))

  lemma TwoAdds()
    ensures AddField(AddField(EmptyFormModal)).fields ==
              Some([FormField("form__field-1", "", "text", false, map[]), FormField("form__field-2", "", "text", false, map[])])
  {
    FirstGeneratedIds();
    var f1 := FormField("form__field-1", "", "text", false, map[]);
    var f2 := FormField("form__field-2", "", "text", false, map[]);
    var m1 := AddField(EmptyFormModal);
    assert f1.id == GeneratedFieldId("form", 0 + 1);
    AddFieldToForm(EmptyFormModal, [], f1);
    assert m1.fields == Some([f1]) by { assert [] + [f1] == [f1]; }
    assert f2.id == GeneratedFieldId("form", |[f1]| + 1);
    AddFieldToForm(m1, [f1], f2);
    assert [f1] + [f2] == [f1, f2];
  }

  /** One add-field click in the modal with id `form` holding `fs`. */
  lemma AddFieldToForm(m: ModalData, fs: seq<FormField>, f: FormField)
    requires m.id == Some("form") && m.fields == Some(fs)
    requires f == FormField(GeneratedFieldId("form", |fs| + 1), "", "text", false, map[])
    ensures AddField(m).fields == Some(fs + [f]) && AddField(m).id == Some("form")
  {
    assert FieldsOr(m) == fs && IdText(m.id) == "form";
    assert AddField(m).fields.value == fs + [f];
  }

  lemma DeleteFirstOfTwo()
    ensures var f1 := FormField("form__field-1", "", "text", false, map[]);
            var f2 := FormField("form__field-2", "", "text", false, map[]);
            Filter([f1, f2], OtherId("form__field-1")) == [f2]
  {
    var f1 := FormField("form__field-1", "", "text", false, map[]);
    var f2 := FormField("form__field-2", "", "text", false, map[]);
    assert f1.id != f2.id by { assert f1.id[12] != f2.id[12]; }
    FilterCons(f1, [f2], OtherId("form__field-1"));
    FilterCons(f2, [], OtherId("form__field-1"));
    assert [f1, f2] == [f1] + [f2] && [f2] == [f2] + [];
  }

  // ---------------------------------------------------------------- error lines

  /** An error key matches field `id` and property `prop` as the error line
      reads it: `split('_')` part 1 is `prop` and part 0 is `id`. */
  predicate KeyMatches(key: string, id: string, prop: string) {
    KeyProperty(key) == Some(prop) && KeyId(key) == id
  }

  /** The message shown under a field's name or type: that of the first
      error whose key matches, if any. */
  function ErrorMessage(errors: seq<FieldError>, id: string, prop: string): (r: Option<string>)
    ensures r.Some? <==> exists i :: 0 <= i < |errors| && KeyMatches(errors[i].field, id, prop)
    ensures r.Some? ==> exists i :: 0 <= i < |errors| && KeyMatches(errors[i].field, id, prop)
                                    && errors[i].message == r.value
                                    && forall j :: 0 <= j < i ==> !KeyMatches(errors[j].field, id, prop)
  {
    if |errors| == 0 then None
    else if KeyMatches(errors[0].field, id, prop) then Some(errors[0].message)
    else
      var r := ErrorMessage(errors[1..], id, prop);
      assert forall i :: 1 <= i < |errors| ==> errors[i] == errors[1..][i - 1];
      r
  }

  /** The error lines of a field made by the add-field button stay empty
      whatever errors the modal holds. */
  lemma AddedFieldErrorsHidden(m: ModalData, errors: seq<FieldError>, prop: string)
    ensures ErrorMessage(errors, NextFieldId(m), prop) == None
  {
    NextFieldIdUnderscored(m);
    forall i | 0 <= i < |errors| ensures KeyId(errors[i].field) != NextFieldId(m) {
      UnderscoredIdNeverRead(NextFieldId(m), errors[i].field);
    }
  }

  /** Distinct field ids. */
  predicate DistinctIds(fields: seq<FormField>) {
    forall i, j :: 0 <= i < j < |fields| ==> fields[i].id != fields[j].id
  }

  /** After a rejected save, with plain distinct ids, a field's name line
      shows "This field is required." exactly when its name is blank, and
      its type line shows "Field type is required." exactly when no type is
      chosen. */
  lemma SaveErrorsShown(fields: seq<FormField>, i: int)
    requires PlainDistinctIds(fields) && 0 <= i < |fields|
    ensures ErrorMessage(SaveErrors(fields), fields[i].id, "name") ==
              (if IsBlank(fields[i].name) then Some(NameRequiredMessage) else None)
    ensures ErrorMessage(SaveErrors(fields), fields[i].id, "type") ==
              (if fields[i].fieldType == "" then Some(TypeRequiredMessage) else None)
  {
    ErrorListedIff(fields, i);
    KeyRoundTrip(fields[i].id);
    LineShown(fields, fields[i].id, "name", NameError(fields[i].id));
    LineShown(fields, fields[i].id, "type", TypeError(fields[i].id));
  }

  /** With distinct ids, a field's name (type) error is listed after a save
      exactly when its name is blank (its type unchosen). */
  lemma ErrorListedIff(fields: seq<FormField>, i: int)
    requires DistinctIds(fields) && 0 <= i < |fields|
    ensures NameError(fields[i].id) in SaveErrors(fields) <==> IsBlank(fields[i].name)
    ensures TypeError(fields[i].id) in SaveErrors(fields) <==> fields[i].fieldType == ""
  {
    NameErrorListedIff(fields, i);
    TypeErrorListedIff(fields, i);
  }

  lemma NameErrorListedIff(fields: seq<FormField>, i: int)
    requires DistinctIds(fields) && 0 <= i < |fields|
    ensures NameError(fields[i].id) in SaveErrors(fields) <==> IsBlank(fields[i].name)
  {
    var e := NameError(fields[i].id);
    if e in SaveErrors(fields) {
      assert e != NoFieldsError by { assert NoFieldsMessage[0] != NameRequiredMessage[0]; }
      assert e.message != TypeRequiredMessage by { assert NameRequiredMessage[0] != TypeRequiredMessage[0]; }
      var j :| 0 <= j < |fields| && e == NameError(fields[j].id) && IsBlank(fields[j].name);
      SuffixCancel(fields[i].id, fields[j].id, "_name");
      assert j == i;
    }
  }

  lemma TypeErrorListedIff(fields: seq<FormField>, i: int)
    requires DistinctIds(fields) && 0 <= i < |fields|
    ensures TypeError(fields[i].id) in SaveErrors(fields) <==> fields[i].fieldType == ""
  {
    var e := TypeError(fields[i].id);
    if e in SaveErrors(fields) {
      assert e != NoFieldsError by { assert NoFieldsMessage[0] != TypeRequiredMessage[0]; }
      assert e.message != NameRequiredMessage by { assert NameRequiredMessage[0] != TypeRequiredMessage[0]; }
      var j :| 0 <= j < |fields| && e == TypeError(fields[j].id) && fields[j].fieldType == "";
      SuffixCancel(fields[i].id, fields[j].id, "_type");
      assert j == i;
    }
  }

  lemma SuffixCancel(a: string, b: string, t: string)
    ensures a + t == b + t ==> a == b
  {
    if a + t == b + t {
      assert a == (a + t)[..|a|];
      assert b == (b + t)[..|b|];
    }
  }

  /** One error line after a save, over `_`-free ids. */
  lemma LineShown(fields: seq<FormField>, id: string, prop: string, e: FieldError)
    requires PlainDistinctIds(fields) && KeyMatches(e.field, id, prop)
    requires (prop == "name" && e == NameError(id)) || (prop == "type" && e == TypeError(id))
    ensures ErrorMessage(SaveErrors(fields), id, prop) == (if e in SaveErrors(fields) then Some(e.message) else None)
  {
    forall x | x in SaveErrors(fields) && KeyMatches(x.field, id, prop) ensures x == e {
      SaveErrorKeyOwner(fields, x, id);
    }
    ShownWhenPresent(SaveErrors(fields), id, prop, e);
  }

  /** Every error a save produces over plain distinct ids is either the
      `none` error, whose key matches no property, or the name or type
      error of exactly one field. */
  lemma SaveErrorKeyOwner(fields: seq<FormField>, e: FieldError, id: string)
    requires PlainDistinctIds(fields) && e in SaveErrors(fields)
    ensures KeyMatches(e.field, id, "name") ==> e == NameError(id)
    ensures KeyMatches(e.field, id, "type") ==> e == TypeError(id)
  {
    if e == NoFieldsError {
      NoneKeyHasNoProperty();
    } else {
      var j :| 0 <= j < |fields| &&
               ((e == NameError(fields[j].id) && IsBlank(fields[j].name))
                || (e == TypeError(fields[j].id) && fields[j].fieldType == ""));
      KeyRoundTrip(fields[j].id);
    }
  }

  lemma NoneKeyHasNoProperty()
    ensures KeyProperty(NoneKey) == None
  {
    assert Split(NoneKey, '_') == [NoneKey] by {
      IndexOfAbsent(NoneKey, '_');
    }
  }

  lemma IndexOfAbsent(s: string, c: char)
    requires c !in s
    ensures IndexOf(s, c) == |s|
  {
  }

  /** When every error matching `id`/`prop` is `e`, the line shows `e`'s
      message exactly when `e` is present. */
  lemma ShownWhenPresent(errors: seq<FieldError>, id: string, prop: string, e: FieldError)
    requires KeyMatches(e.field, id, prop)
    requires forall x :: x in errors && KeyMatches(x.field, id, prop) ==> x == e
    ensures ErrorMessage(errors, id, prop) == (if e in errors then Some(e.message) else None)
  {
    var r := ErrorMessage(errors, id, prop);
    if r.Some? {
      var i :| 0 <= i < |errors| && KeyMatches(errors[i].field, id, prop) && errors[i].message == r.value;
      assert errors[i] in errors;
    }
    if e in errors {
      var i :| 0 <= i < |errors| && errors[i] == e;
      assert KeyMatches(errors[i].field, id, prop);
    }
  }

  /** The error line with keys read by suffix. */
  function ErrorMessageBySuffix(errors: seq<FieldError>, id: string, prop: string): (r: Option<string>)
    ensures r.Some? <==> exists i :: 0 <= i < |errors| && KeyOwner(errors[i].field, prop) == Some(id)
    ensures r.Some? ==> exists i :: 0 <= i < |errors| && KeyOwner(errors[i].field, prop) == Some(id)
                                    && errors[i].message == r.value
                                    && forall j :: 0 <= j < i ==> KeyOwner(errors[j].field, prop) != Some(id)
  {
    if |errors| == 0 then None
    else if KeyOwner(errors[0].field, prop) == Some(id) then Some(errors[0].message)
    else
      var r := ErrorMessageBySuffix(errors[1..], id, prop);
      assert forall i :: 1 <= i < |errors| ==> errors[i] == errors[1..][i - 1];
      r
  }

  /** Read by suffix, a rejected save's error lines are right for every
      field with a distinct id, generated ids included. */
  lemma SaveErrorsShownBySuffix(fields: seq<FormField>, i: int)
    requires DistinctIds(fields) && 0 <= i < |fields|
    ensures ErrorMessageBySuffix(SaveErrors(fields), fields[i].id, "name") ==
              (if IsBlank(fields[i].name) then Some(NameRequiredMessage) else None)
    ensures ErrorMessageBySuffix(SaveErrors(fields), fields[i].id, "type") ==
              (if fields[i].fieldType == "" then Some(TypeRequiredMessage) else None)
  {
    ErrorListedIff(fields, i);
    KeyOwnerRoundTrip(fields[i].id);
    LineShownBySuffix(fields, fields[i].id, "name", NameError(fields[i].id));
    LineShownBySuffix(fields, fields[i].id, "type", TypeError(fields[i].id));
  }

  /** One error line after a save, read by suffix, for any ids. */
  lemma LineShownBySuffix(fields: seq<FormField>, id: string, prop: string, e: FieldError)
    requires KeyOwner(e.field, prop) == Some(id)
    requires (prop == "name" && e == NameError(id)) || (prop == "type" && e == TypeError(id))
    ensures ErrorMessageBySuffix(SaveErrors(fields), id, prop) == (if e in SaveErrors(fields) then Some(e.message) else None)
  {
    forall x | x in SaveErrors(fields) && KeyOwner(x.field, prop) == Some(id) ensures x == e {
      SaveErrorOwnerBySuffix(fields, x, id);
    }
    ShownBySuffixWhenPresent(SaveErrors(fields), id, prop, e);
  }

  lemma SaveErrorOwnerBySuffix(fields: seq<FormField>, e: FieldError, id: string)
    requires e in SaveErrors(fields)
    ensures KeyOwner(e.field, "name") == Some(id) ==> e == NameError(id)
    ensures KeyOwner(e.field, "type") == Some(id) ==> e == TypeError(id)
  {
    if e != NoFieldsError {
      var j :| 0 <= j < |fields| &&
               ((e == NameError(fields[j].id) && IsBlank(fields[j].name))
                || (e == TypeError(fields[j].id) && fields[j].fieldType == ""));
      KeyOwnerRoundTrip(fields[j].id);
    } else {
      KeyOwnerRoundTrip("");
    }
  }

  lemma ShownBySuffixWhenPresent(errors: seq<FieldError>, id: string, prop: string, e: FieldError)
    requires KeyOwner(e.field, prop) == Some(id)
    requires forall x :: x in errors && KeyOwner(x.field, prop) == Some(id) ==> x == e
    ensures ErrorMessageBySuffix(errors, id, prop) == (if e in errors then Some(e.message) else None)
  {
    var r := ErrorMessageBySuffix(errors, id, prop);
    if r.Some? {
      var i :| 0 <= i < |errors| && KeyOwner(errors[i].field, prop) == Some(id) && errors[i].message == r.value;
      assert errors[i] in errors;
    }
    if e in errors {
      var i :| 0 <= i < |errors| && errors[i] == e;
      assert KeyOwner(errors[i].field, prop) == Some(id);
    }
  }

  // ---------------------------------------------------------------- inputs

  /** The name input's value: the first field with the id, its name, or
      `''` when there is no such field. */
  function DisplayedName(m: ModalData, id: string): (r: string)
    ensures FindField(FieldsOr(m), id) == None ==> r == ""
    ensures FindField(FieldsOr(m), id).Some? ==> r == FindField(FieldsOr(m), id).value.name
  {
    match FindField(FieldsOr(m), id)
    case Some(f) => f.name
    case None => ""
  }

  /** The required checkbox: the first field with the id, its flag, or
      unchecked when there is no such field. */
  function DisplayedRequired(m: ModalData, id: string): (r: bool)
    ensures r <==> FindField(FieldsOr(m), id).Some? && FindField(FieldsOr(m), id).value.required
  {
    match FindField(FieldsOr(m), id)
    case Some(f) => f.required
    case None => false
  }

  /** Typing into the name input of an existing field shows what was typed. */
  lemma NameInputRoundTrip(m: ModalData, id: string, value: string, checked: bool)
    requires FindField(FieldsOr(m), id).Some?
    ensures DisplayedName(HandleChange(m, "name", id, value, checked), id) == value
  {
    var fs := FieldsOr(m);
    var fs' := MapMatching(fs, id, "name", value, checked);
    assert HandleChange(m, "name", id, value, checked).fields == Some(fs');
    forall j | 0 <= j < |fs| ensures fs'[j].id == fs[j].id {
      MapMatchingAt(fs, id, "name", value, checked, j);
    }
    FindFieldMapped(fs, fs', id);
    var i :| 0 <= i < |fs| && fs[i].id == id && fs'[i] == FindField(fs', id).value;
    MapMatchingAt(fs, id, "name", value, checked, i);
  }

  /** Ticking the required checkbox of an existing field shows its state. */
  lemma RequiredInputRoundTrip(m: ModalData, id: string, value: string, checked: bool)
    requires FindField(FieldsOr(m), id).Some?
    ensures DisplayedRequired(HandleChange(m, "required", id, value, checked), id) == checked
  {
    var fs := FieldsOr(m);
    var fs' := MapMatching(fs, id, "required", value, checked);
    assert HandleChange(m, "required", id, value, checked).fields == Some(fs');
    forall j | 0 <= j < |fs| ensures fs'[j].id == fs[j].id {
      MapMatchingAt(fs, id, "required", value, checked, j);
    }
    FindFieldMapped(fs, fs', id);
    var i :| 0 <= i < |fs| && fs[i].id == id && fs'[i] == FindField(fs', id).value;
    MapMatchingAt(fs, id, "required", value, checked, i);
  }

  /** A change that keeps every field's id and changes only fields with id
      `id` leaves the first field with `id` at the same position. */
  lemma FindFieldMapped(a: seq<FormField>, b: seq<FormField>, id: string)
    requires |a| == |b|
    requires forall i :: 0 <= i < |a| ==> b[i].id == a[i].id
    requires FindField(a, id).Some?
    ensures FindField(b, id).Some?
    ensures exists i :: 0 <= i < |a| && a[i].id == id && b[i] == FindField(b, id).value
  {
    var i :| 0 <= i < |b| && b[i] == FindField(b, id).value && forall j :: 0 <= j < i ==> b[j].id != id;
    assert a[i].id == id;
  }
}
