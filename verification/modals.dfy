/** Opening and closing the node configuration modal. */
module Modals {

  import opened Wrappers
  import opened Strings
  import opened Types
  import opened TitleCase
  import opened Forms

  /** `s || null` for a string: an empty string counts as missing. */
  function NonEmpty(s: string): (r: Option<string>)
    ensures r == None <==> s == ""
    ensures r.Some? ==> r.value == s
  {
    if s == "" then None else Some(s)
  }

  /** `a || b` for an optional string: missing or empty falls back to `b`. */
  function StringOr(a: Option<string>, b: string): (r: string)
    ensures a.Some? && a.value != "" ==> r == a.value
    ensures a == None || a == Some("") ==> r == b
  {
    match a
    case Some(s) => if s == "" then b else s
    case None => b
  }

  /** The label the modal shows for a node without one: its type in title
      case followed by ` Node`. */
  function DefaultLabel(nodeType: string): (r: string)
    ensures |r| >= 5 && r[|r| - 5..] == " Node"
    ensures IsTitleCaseOf(r[..|r| - 5], nodeType)
  {
    var t := ToTitleCase(Some(nodeType));
    assert (t + " Node")[..|t|] == t;
    t + " Node"
  }

  /** `launchFormModal(node)`: the modal's working copy of a node. Id and
      type are kept unless empty; the label is the node's own when it has a
      non-empty one, else the default; the custom name defaults to `''`; a
      missing field list becomes `[]`; there are no errors yet. */
  function LaunchData(n: Node): (r: ModalData)
    ensures r.id == NonEmpty(n.id) && r.nodeType == NonEmpty(n.nodeType)
    ensures n.data.labelText.Some? && n.data.labelText.value != "" ==> r.labelText == n.data.labelText.value
    ensures n.data.labelText == None || n.data.labelText == Some("") ==> r.labelText == DefaultLabel(n.nodeType)
    ensures r.customName == n.data.customName.GetOr("")
    ensures r.errors == Some([])
    ensures r.fields == Some(n.data.fields.GetOr([]))
  {
    ModalData(
      NonEmpty(n.id),
      NonEmpty(n.nodeType),
      StringOr(n.data.labelText, DefaultLabel(n.nodeType)),
      StringOr(n.data.customName, ""),
      Some([]),
      Some(n.data.fields.GetOr([])))
  }

  /** Launching shows the modal with the node's working copy. */
  function LaunchFormModal(st: FormSaveState, n: Node): (r: FormSaveState)
    ensures r.showModal && r.modal == LaunchData(n) && r.nodes == st.nodes
  {
    st.(modal := LaunchData(n), showModal := true)
  }

  /** `closeModal`: hides the modal and changes nothing else. */
  function CloseModal(st: FormSaveState): (r: FormSaveState)
    ensures !r.showModal && r.modal == st.modal && r.nodes == st.nodes
  {
    st.(showModal := false)
  }

  /** A freshly launched modal passes the validity test exactly when the
      node has fields and all of them are named. */
  lemma LaunchedValidIff(n: Node)
    ensures FormIsValid(LaunchData(n)) <==>
              var fs := n.data.fields.GetOr([]);
              |fs| > 0 && forall i :: 0 <= i < |fs| ==> !IsBlank(fs[i].name)
  {
  }

  /** A node that already carries a label, a custom name the sanitiser
      keeps, and a list of fields, is written back unchanged when its modal
      is opened and saved without edits. */
  lemma OpenSaveRoundTrip(n: Node, sanitise: string -> string)
    requires n.id != ""
    requires n.data.labelText.Some? && n.data.labelText.value != ""
    requires n.data.customName.Some? && sanitise(n.data.customName.value) == n.data.customName.value
    requires n.data.fields.Some?
    ensures SavedInto(n, LaunchData(n), sanitise) == n
  {
  }

  /** Saving a launched, valid modal rewrites exactly the launched node
      (and any other node sharing its id) and closes the modal. */
  lemma LaunchSaveTouchesOnlyNode(st: FormSaveState, n: Node, sanitise: string -> string)
    requires n.id != ""
    requires n.data.fields.Some? && |n.data.fields.value| > 0
    requires forall i :: 0 <= i < |n.data.fields.value| ==> !IsBlank(n.data.fields.value[i].name)
    ensures var r := HandleSaveChanges(LaunchFormModal(st, n), sanitise);
            && r.Ok? && !r.value.showModal && |r.value.nodes| == |st.nodes|
            && forall i :: 0 <= i < |st.nodes| ==>
                 r.value.nodes[i] == (if st.nodes[i].id == n.id then SavedInto(st.nodes[i], LaunchData(n), sanitise) else st.nodes[i])
  {
    LaunchedValidIff(n);
    var r := HandleSaveChanges(LaunchFormModal(st, n), sanitise);
    assert r.value.nodes == SaveNodes(st.nodes, LaunchData(n), sanitise);
  }
}
