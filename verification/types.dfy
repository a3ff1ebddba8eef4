/** The plain records the editor passes around: form fields, field errors,
    graph nodes and edges, and the modal's working copy of a node. */
module Types {

  import opened Wrappers

  /** A form field. `fieldType` is `text`, `email`, `number` or `''` (not yet
      chosen); any other string a change event carries is kept as given.
      `extra` holds properties other than the four named ones that a change
      event may have set; it never uses those four keys. */
  datatype FormField = FormField(
    id: string,
    name: string,
    fieldType: string,
    required: bool,
    extra: map<string, string>)

  /** The property names a field stores outside `extra`. */
  predicate IsNamedProperty(key: string) {
    key == "id" || key == "name" || key == "type" || key == "required"
  }

  predicate WellFormedField(f: FormField) {
    forall key :: key in f.extra ==> !IsNamedProperty(key)
  }

  /** A field-level error: `field` is a key such as `<fieldId>_name`,
      `<fieldId>_type` or `none`. */
  datatype FieldError = FieldError(field: string, message: string)

  /** Canvas coordinates; the model never computes with them. */
  datatype Position = Position(x: real, y: real)

  /** The payload of a node (`labelText` is its `label` key): the keys the modelled code reads or writes.
      Other keys of the payload (an API node's URL, method and request body)
      are not read by any modelled operation. */
  datatype NodeData = NodeData(
    labelText: Option<string>,
    customName: Option<string>,
    fields: Option<seq<FormField>>,
    blockType: Option<string>)

  datatype Node = Node(id: string, nodeType: string, position: Position, data: NodeData)

  datatype Edge = Edge(id: string, source: string, target: string, labelText: Option<string>)

  /** The modal's working copy of the node being configured. `id` and
      `nodeType` are `null` when the node had none; `errors` and `fields`
      may be missing in a state the handlers receive. */
  datatype ModalData = ModalData(
    id: Option<string>,
    nodeType: Option<string>,
    labelText: string,
    customName: string,
    errors: Option<seq<FieldError>>,
    fields: Option<seq<FormField>>)

  /** `modalData.fields || []`. */
  function FieldsOr(m: ModalData): seq<FormField> {
    m.fields.GetOr([])
  }

  /** The first field with the given id (`fields.find(f => f.id === id)`). */
  function FindField(fields: seq<FormField>, id: string): (r: Option<FormField>)
    ensures r.Some? <==> exists i :: 0 <= i < |fields| && fields[i].id == id
    ensures r.Some? ==> r.value.id == id
    ensures r.Some? ==>
              exists i :: 0 <= i < |fields| && fields[i] == r.value && forall j :: 0 <= j < i ==> fields[j].id != id
  {
    if |fields| == 0 then None
    else if fields[0].id == id then Some(fields[0])
    else
      var r := FindField(fields[1..], id);
      assert forall i :: 1 <= i < |fields| ==> fields[i] == fields[1..][i - 1];
      r
  }
}
