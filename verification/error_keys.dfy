/** Field-error keys: `<fieldId>_name`, `<fieldId>_type` and `none`. The
    editor writes them by appending a suffix and reads them back with
    `key.split('_')`, taking part 0 as the field id and part 1 as the
    property. */
module ErrorKeys {

  import opened Wrappers
  import opened Strings

  const NoneKey := "none"

  /** `${field.id}_name`. */
  function NameKey(id: string): string {
    id + "_name"
  }

  /** `${field.id}_type`. */
  function TypeKey(id: string): string {
    id + "_type"
  }

  /** `key.split('_')[0]`: the field id as the readers see it. */
  function KeyId(key: string): (r: string)
    ensures '_' !in r
  {
    Split(key, '_')[0]
  }

  /** `key.split('_')[1]`: the property as the readers see it, `undefined`
      when the key has no `_`. */
  function KeyProperty(key: string): (r: Option<string>)
    ensures r.Some? ==> '_' !in r.value
  {
    Part(key, '_', 1)
  }

  /** For an id without `_`, reading a written key gives back the id and
      the property. */
  lemma KeyRoundTrip(id: string)
    requires '_' !in id
    ensures KeyId(NameKey(id)) == id && KeyProperty(NameKey(id)) == Some("name")
    ensures KeyId(TypeKey(id)) == id && KeyProperty(TypeKey(id)) == Some("type")
  {
    assert NameKey(id) == id + ['_'] + "name";
    assert TypeKey(id) == id + ['_'] + "type";
    PartsOfPair(id, "name", '_');
    PartsOfPair(id, "type", '_');
  }

  /** For an id that contains `_`, the id read back from any key is never
      that id. */
  lemma UnderscoredIdNeverRead(id: string, key: string)
    requires '_' in id
    ensures KeyId(key) != id
  {
  }

  /** The field id the add-field button builds: `<prefix>__field-<n>`. */
  function GeneratedFieldId(prefix: string, n: nat): string {
    prefix + "__field-" + DecimalString(n)
  }

  lemma FirstGeneratedIds()
    ensures GeneratedFieldId("form", 1) == "form__field-1"
    ensures GeneratedFieldId("form", 2) == "form__field-2"
  {
    assert DecimalString(1) == "1" && DecimalString(2) == "2";
  }

  /** The shape of the node ids the editor hands out, and so of modal ids:
      a block id alone (the first node on an empty canvas), or the block id,
      `_` and a number. */
  function NodeIdOf(blockId: string, number: Option<nat>): string {
    match number
    case None => blockId
    case Some(k) => blockId + "_" + DecimalString(k)
  }

  /** What the key reader takes for the property of a generated field's key:
      `''` under a bare block id, the node number otherwise. */
  function NumberText(number: Option<nat>): (r: string)
    ensures '_' !in r && r != "name" && r != "type"
  {
    match number
    case None => ""
    case Some(k) =>
      var d := DecimalString(k);
      assert d[0] != 'n' && d[0] != 't';
      assert forall i :: 0 <= i < |d| ==> d[i] != '_';
      d
  }

  /** The keys of a field id the add-field button builds in a modal whose id
      has the editor's shape, with a block id free of `_`: the id read back
      is the block id, and the property read back is `''` for a bare block
      id and the node number otherwise; never `name` or `type`. */
  lemma GeneratedIdKeys(blockId: string, number: Option<nat>, n: nat)
    requires '_' !in blockId
    ensures var id := GeneratedFieldId(NodeIdOf(blockId, number), n);
            && KeyId(NameKey(id)) == blockId && KeyProperty(NameKey(id)) == Some(NumberText(number))
            && KeyId(TypeKey(id)) == blockId && KeyProperty(TypeKey(id)) == Some(NumberText(number))
  {
    var id := GeneratedFieldId(NodeIdOf(blockId, number), n);
    var rest := GeneratedIdShape(blockId, number, n);
    var mid := NumberText(number);
    assert NameKey(id) == blockId + ['_'] + (mid + ['_'] + (rest + "_name"));
    assert TypeKey(id) == blockId + ['_'] + (mid + ['_'] + (rest + "_type"));
    FirstTwoParts(blockId, mid, rest + "_name");
    FirstTwoParts(blockId, mid, rest + "_type");
  }

  /** A generated field id is the block id, `_`, the number text, `_` and
      the rest. */
  lemma GeneratedIdShape(blockId: string, number: Option<nat>, n: nat) returns (rest: string)
    ensures GeneratedFieldId(NodeIdOf(blockId, number), n) == blockId + ['_'] + (NumberText(number) + ['_'] + rest)
  {
    var f := "field-" + DecimalString(n);
    var node := NodeIdOf(blockId, number);
    var mid := NumberText(number);
    assert GeneratedFieldId(node, n) == node + (['_'] + (['_'] + f)) by {
      assert "__field-" == ['_'] + (['_'] + "field-");
    }
    if number.None? {
      rest := f;
    } else {
      rest := ['_'] + f;
      assert node == blockId + ['_'] + mid;
    }
  }

  lemma FirstTwoParts(a: string, mid: string, rest: string)
    requires '_' !in a && '_' !in mid
    ensures Split(a + ['_'] + (mid + ['_'] + rest), '_')[0] == a
    ensures Part(a + ['_'] + (mid + ['_'] + rest), '_', 1) == Some(mid)
  {
    var t := mid + ['_'] + rest;
    var s := a + ['_'] + t;
    IndexOfConcat(a, '_', t);
    IndexOfConcat(mid, '_', rest);
    assert s[..|a|] == a && s[|a| + 1..] == t;
    assert Split(s, '_') == [a] + Split(t, '_');
    assert t[..|mid|] == mid;
    assert Split(t, '_') == [mid] + Split(t[|mid| + 1..], '_');
  }

  // ---------------------------------------------------------------- corrected reading

  /** The field id a key names for `property`, read by stripping the known
      suffix `_<property>` rather than by splitting. */
  function KeyOwner(key: string, property: string): (r: Option<string>)
    ensures r.Some? ==> key == r.value + "_" + property
  {
    var suffix := "_" + property;
    if |suffix| <= |key| && key[|key| - |suffix|..] == suffix then
      Some(key[..|key| - |suffix|])
    else None
  }

  /** Reading a written key by its suffix gives back the id, whatever characters it holds. */
  lemma KeyOwnerRoundTrip(id: string)
    ensures KeyOwner(NameKey(id), "name") == Some(id)
    ensures KeyOwner(TypeKey(id), "type") == Some(id)
    ensures KeyOwner(NameKey(id), "type") == None
    ensures KeyOwner(TypeKey(id), "name") == None
    ensures KeyOwner(NoneKey, "name") == None && KeyOwner(NoneKey, "type") == None
  {
    var n, t := NameKey(id), TypeKey(id);
    assert n[|n| - 5..] == "_name";
    assert t[|t| - 5..] == "_type";
    assert n[..|n| - 5] == id;
    assert t[..|t| - 5] == id;
  }
}
