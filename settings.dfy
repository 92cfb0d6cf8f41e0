/**
 * The settings package of the engine (`settings/settings.go`): the list of
 * configuration sections that are loaded and saved together, and
 * `ProtectedFill`, which overwrites a settings struct with a new one except
 * for the fields tagged `protected:"true"`.
 *
 * A settings struct is modelled by its type descriptor and an array of its
 * field values, one element per field in declaration order; one element type
 * `V` stands for the types of all the fields.
 */
module Settings {
  import opened Reflect

  /** The settings objects the built-in sections point to, and any other registered one. */
  datatype SettingsPtr =
    | AppSettings
    | ServerSettings
    | DataBaseSettings
    | RedisSettings
    | SonyflakeSettings
    | Registered(id: string)

  /** `section`: the name of an ini section and the object it is mapped to. */
  datatype Section = Section(name: string, ptr: SettingsPtr)

  /** The sections the package starts with. */
  const DefaultSections: seq<Section> := [
    Section("app", AppSettings),
    Section("server", ServerSettings),
    Section("database", DataBaseSettings),
    Section("redis", RedisSettings),
    Section("sonyflake", SonyflakeSettings)
  ]

  /** The package-level `sections` list. */
  class SectionRegistry {
    var sections: seq<Section>

    constructor ()
      ensures sections == DefaultSections
    {
      sections := DefaultSections;
    }

    /** `Register`: the new section goes after all existing ones. */
    method Register(name: string, ptr: SettingsPtr)
      modifies this`sections
      ensures sections == old(sections) + [Section(name, ptr)]
    {
      sections := sections + [Section(name, ptr)];
    }
  }

  /** A field is protected exactly when its `protected` tag is the string "true". */
  predicate IsProtected(f: Field)
  {
    TagGet(f.tag, "protected") == "true"
  }

  /** Only the exact value "true" protects: an absent tag, "" or any other word does not. */
  lemma ProtectedOnlyByTrue(f: Field)
    ensures IsProtected(f) <==> "protected" in f.tag && f.tag["protected"] == "true"
  {
  }

  /**
   * The field values after the fill: a protected field keeps its value from
   * `target`, every other field takes the value from `incoming`.
   */
  function Fill<V>(target: seq<V>, incoming: seq<V>, fields: seq<Field>): (r: seq<V>)
    requires |target| == |incoming| == |fields|
    ensures |r| == |fields|
    ensures forall i :: 0 <= i < |fields| ==> r[i] == (if IsProtected(fields[i]) then target[i] else incoming[i])
  {
    if fields == [] then []
    else
      var n := |fields| - 1;
      Fill(target[..n], incoming[..n], fields[..n]) + [if IsProtected(fields[n]) then target[n] else incoming[n]]
  }

  /** Filling twice from the same new settings is the same as filling once. */
  lemma FillIdempotent<V>(target: seq<V>, incoming: seq<V>, fields: seq<Field>)
    requires |target| == |incoming| == |fields|
    ensures Fill(Fill(target, incoming, fields), incoming, fields) == Fill(target, incoming, fields)
  {
    var once := Fill(target, incoming, fields);
    var twice := Fill(once, incoming, fields);
    assert forall i :: 0 <= i < |fields| ==> twice[i] == once[i];
  }

  /** Without protected fields the target becomes a copy of the new settings. */
  lemma FillUnprotected<V>(target: seq<V>, incoming: seq<V>, fields: seq<Field>)
    requires |target| == |incoming| == |fields|
    requires forall i :: 0 <= i < |fields| ==> !IsProtected(fields[i])
    ensures Fill(target, incoming, fields) == incoming
  {
    var r := Fill(target, incoming, fields);
    assert forall i :: 0 <= i < |fields| ==> r[i] == incoming[i];
  }

  /** When every field is protected the target keeps all its values. */
  lemma FillAllProtected<V>(target: seq<V>, incoming: seq<V>, fields: seq<Field>)
    requires |target| == |incoming| == |fields|
    requires forall i :: 0 <= i < |fields| ==> IsProtected(fields[i])
    ensures Fill(target, incoming, fields) == target
  {
    var r := Fill(target, incoming, fields);
    assert forall i :: 0 <= i < |fields| ==> r[i] == target[i];
  }

  /**
   * `ProtectedFill(targetSettings, newSettings)`: both point to structs of
   * type `s`; field by field, every unprotected field of the target is set
   * from the new settings. The new settings are not changed (unless they
   * are the target itself).
   */
  method ProtectedFill<V>(s: GoType, target: array<V>, newSettings: array<V>)
    requires s.Struct? && target.Length == |s.fields| && newSettings.Length == |s.fields|
    modifies target
    ensures target[..] == Fill(old(target[..]), old(newSettings[..]), s.fields)
    ensures target != newSettings ==> newSettings[..] == old(newSettings[..])
  {
    var i := 0;
    while i < |s.fields|
      invariant 0 <= i <= |s.fields|
      invariant forall j :: 0 <= j < i ==>
                  target[j] == (if IsProtected(s.fields[j]) then old(target[j]) else old(newSettings[j]))
      invariant forall j :: i <= j < |s.fields| ==> target[j] == old(target[j])
      invariant forall j :: i <= j < |s.fields| ==> newSettings[j] == old(newSettings[j])
      invariant target != newSettings ==> newSettings[..] == old(newSettings[..])
    {
      if !IsProtected(s.fields[i]) {
        target[i] := newSettings[i];
      }
      i := i + 1;
    }
    ghost var expected := Fill(old(target[..]), old(newSettings[..]), s.fields);
    assert forall j :: 0 <= j < |s.fields| ==> target[..][j] == expected[j];
  }
}
