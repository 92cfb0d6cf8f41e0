/**
 * The model-metadata resolver of `model/models.go`: a registry of record
 * types and, for each, a description of its fields (declaration order and a
 * by-name index) with the JSON name, default value and uniqueness read from
 * the field's tags. Embedded structs are flattened into their parent.
 */
module Model {
  import opened Text
  import opened Reflect

  /** The parsed `cosy` tag; its parser is not part of this model, so it keeps the raw text. */
  datatype CosyTag = CosyTag(raw: string)

  function NewCosyTag(raw: string): CosyTag
  {
    CosyTag(raw)
  }

  /** `resolvedModelField`. */
  datatype ResolvedField = ResolvedField(
    name: string,
    typ: string,
    jsonTag: string,
    cosyTag: CosyTag,
    unique: bool,
    defaultValue: string)

  /** The contents of a `ResolvedModel` at one moment. */
  datatype ModelMeta = ModelMeta(
    name: string,
    fields: map<string, ResolvedField>,
    orderedFields: seq<ResolvedField>)

  // ---------------------------------------------------------------------
  // Tags
  // ---------------------------------------------------------------------

  /** The JSON name: the `json` tag up to its first comma ("" when there is no tag). */
  function JsonName(jsonTag: string): (r: string)
    ensures r <= jsonTag && ',' !in r
    ensures |r| < |jsonTag| ==> jsonTag[|r|] == ','
  {
    SplitFirst(jsonTag, ',');
    Split(jsonTag, ',')[0]
  }

  /** A `gorm` tag segment mentioning "default" with exactly one colon: it sets the default. */
  predicate SetsDefault(seg: string)
  {
    Contains(seg, "default") && |Split(seg, ':')| == 2
  }

  /** A segment mentioning "default" with another number of colons: the loop `continue`s past it. */
  predicate SkipsSegment(seg: string)
  {
    Contains(seg, "default") && |Split(seg, ':')| != 2
  }

  /** A segment that marks the field unique: it mentions "unique" and is not skipped. */
  predicate MarksUnique(seg: string)
  {
    !SkipsSegment(seg) && Contains(seg, "unique")
  }

  /** The default value left by the segments in order: the last setting one wins. */
  function LastDefault(segs: seq<string>): string
  {
    if segs == [] then ""
    else if SetsDefault(segs[|segs| - 1]) then Split(segs[|segs| - 1], ':')[1]
    else LastDefault(segs[..|segs| - 1])
  }

  /** Some segment marks the field unique. */
  predicate AnyUnique(segs: seq<string>)
  {
    exists k :: 0 <= k < |segs| && MarksUnique(segs[k])
  }

  function GormDefault(gormTag: string): string
  {
    if gormTag == "" then "" else LastDefault(Split(gormTag, ';'))
  }

  predicate GormUnique(gormTag: string)
  {
    gormTag != "" && AnyUnique(Split(gormTag, ';'))
  }

  /**
   * The scan of the `;`-separated `gorm` tag inside `deepResolve`: the
   * default value and the unique flag it leaves behind.
   */
  method ParseGormTag(gormTags: string) returns (defaultValue: string, unique: bool)
    ensures defaultValue == GormDefault(gormTags)
    ensures unique == GormUnique(gormTags)
  {
    defaultValue, unique := "", false;
    if gormTags != "" {
      var tags := Split(gormTags, ';');
      var i := 0;
      while i < |tags|
        invariant 0 <= i <= |tags|
        invariant defaultValue == LastDefault(tags[..i])
        invariant unique == AnyUnique(tags[..i])
      {
        var tag := tags[i];
        assert tags[..i + 1][..i] == tags[..i];
        assert AnyUnique(tags[..i + 1]) == (AnyUnique(tags[..i]) || MarksUnique(tag)) by {
          if MarksUnique(tag) { assert tags[..i + 1][i] == tag; }
          if AnyUnique(tags[..i + 1]) && !MarksUnique(tag) {
            var k :| 0 <= k < i + 1 && MarksUnique(tags[..i + 1][k]);
            assert k < i && tags[..i][k] == tags[..i + 1][k];
          }
          if AnyUnique(tags[..i]) {
            var k :| 0 <= k < i && MarksUnique(tags[..i][k]);
            assert tags[..i + 1][k] == tags[..i][k];
          }
        }
        if Contains(tag, "default") {
          var defaultValueTag := Split(tag, ':');
          if |defaultValueTag| != 2 {
            i := i + 1;
            continue;
          }
          defaultValue := defaultValueTag[1];
        }
        if Contains(tag, "unique") {
          unique := true;
        }
        i := i + 1;
      }
      assert tags[..|tags|] == tags;
    }
  }

  /**
   * `LastDefault` is the value after the colon of the last segment that sets
   * a default, and "" when none does.
   */
  lemma {:induction false} LastDefaultIsLast(segs: seq<string>)
    ensures (forall k :: 0 <= k < |segs| ==> !SetsDefault(segs[k])) ==> LastDefault(segs) == ""
    ensures forall k :: (0 <= k < |segs| && SetsDefault(segs[k])
                         && (forall j :: k < j < |segs| ==> !SetsDefault(segs[j])))
                        ==> LastDefault(segs) == Split(segs[k], ':')[1]
  {
    if segs != [] {
      var init := segs[..|segs| - 1];
      LastDefaultIsLast(init);
      forall k | 0 <= k < |init| ensures init[k] == segs[k] { }
    }
  }

  /** An empty `gorm` tag leaves the zero values. */
  lemma EmptyGormTag()
    ensures GormDefault("") == "" && !GormUnique("")
  {
  }

  /** A segment without `;` is the whole of a tag. */
  lemma OneSegment(seg: string)
    requires ';' !in seg && seg != ""
    ensures Split(seg, ';') == [seg]
  {
    JoinSplit([seg], ';');
  }

  /** A segment `key:value` mentioning "default" sets the default to `value`. */
  lemma GormDefaultSegment(key: string, value: string)
    requires ':' !in key && ':' !in value && ';' !in key && ';' !in value
    requires Contains(key + [':'] + value, "default")
    ensures SetsDefault(key + [':'] + value)
    ensures GormDefault(key + [':'] + value) == value
  {
    var seg := key + [':'] + value;
    assert ';' !in seg;
    OneSegment(seg);
    JoinSplit([key, value], ':');
    assert Join([key, value], ':') == seg;
    assert [seg][..0] == [];
  }

  /**
   * A segment mentioning "default" that does not have exactly one colon
   * (none, or two or more) is skipped entirely: it sets no default and, even if it mentions "unique", does not
   * mark the field unique.
   */
  lemma GormSkippedSegment(seg: string)
    requires ';' !in seg && Contains(seg, "default") && Count(seg, ':') != 1
    ensures GormDefault(seg) == ""
    ensures !GormUnique(seg)
  {
    OneSegment(seg);
    SplitCount(seg, ':');
    assert [seg][..0] == [];
    assert !SetsDefault([seg][0]);
    assert LastDefault([seg]) == LastDefault([]);
    assert !MarksUnique([seg][0]);
  }

  /** A segment mentioning "unique" that is not skipped marks the field unique. */
  lemma GormUniqueSegment(seg: string)
    requires ';' !in seg && Contains(seg, "unique") && !SkipsSegment(seg)
    ensures GormUnique(seg)
  {
    OneSegment(seg);
    assert MarksUnique([seg][0]);
  }

  /**
   * "default" is searched for as a substring: a unique index whose name
   * mentions it marks the field unique and also has its name read as the
   * default value.
   */
  lemma GormIndexNameMentionsDefault(name: string)
    requires Contains(name, "default") && ':' !in name && ';' !in name
    ensures GormUnique("uniqueIndex" + [':'] + name)
    ensures GormDefault("uniqueIndex" + [':'] + name) == name
  {
    var seg := "uniqueIndex" + [':'] + name;
    var i: nat :| OccursAt(name, "default", i);
    assert seg[12 + i..12 + i + 7] == name[i..i + 7];
    assert OccursAt(seg, "default", 12 + i);
    GormDefaultSegment("uniqueIndex", name);
    assert seg[0..6] == "unique";
    assert OccursAt(seg, "unique", 0);
    GormUniqueSegment(seg);
  }

  // ---------------------------------------------------------------------
  // Flattening embedded structs
  // ---------------------------------------------------------------------

  /** One level of pointer-to-struct indirection is removed before the embedding test. */
  function Unwrap(t: GoType): (u: GoType)
    ensures t.Ptr? && t.elem.Struct? ==> u == t.elem
    ensures !(t.Ptr? && t.elem.Struct?) ==> u == t
    ensures u.Struct? <==> t.Struct? || (t.Ptr? && t.elem.Struct?)
  {
    if t.Ptr? && t.elem.Struct? then t.elem else t
  }

  /** An anonymous field of struct or pointer-to-struct type: its fields are spliced in. */
  predicate IsEmbedded(f: Field)
  {
    f.anonymous && Unwrap(f.typ).Struct?
  }

  /** The leaf fields contributed by the first `n` fields of struct `s`, embeds inlined. */
  function FlatPrefix(s: GoType, n: nat): seq<Field>
    requires s.Struct? && n <= |s.fields|
    decreases s, n
  {
    if n == 0 then []
    else
      var f := s.fields[n - 1];
      assert f in s.fields;
      var inner := Unwrap(f.typ);
      FlatPrefix(s, n - 1)
        + (if IsEmbedded(f) then FlatPrefix(inner, |inner.fields|) else [f])
  }

  /** All leaf fields of `s`, in declaration order with embedded fields inlined. */
  function LeafFields(s: GoType): seq<Field>
    requires s.Struct?
  {
    FlatPrefix(s, |s.fields|)
  }

  /** The number of leaves, counted field by field. */
  function LeafCount(s: GoType, n: nat): nat
    requires s.Struct? && n <= |s.fields|
    decreases s, n
  {
    if n == 0 then 0
    else
      var f := s.fields[n - 1];
      assert f in s.fields;
      var inner := Unwrap(f.typ);
      LeafCount(s, n - 1) + (if IsEmbedded(f) then LeafCount(inner, |inner.fields|) else 1)
  }

  /** No embedded field is ever a leaf, and there are exactly `LeafCount` leaves. */
  lemma {:induction false} FlatPrefixLeaves(s: GoType, n: nat)
    requires s.Struct? && n <= |s.fields|
    ensures forall f :: f in FlatPrefix(s, n) ==> !IsEmbedded(f)
    ensures |FlatPrefix(s, n)| == LeafCount(s, n)
    decreases s, n
  {
    if n > 0 {
      var f := s.fields[n - 1];
      assert f in s.fields;
      FlatPrefixLeaves(s, n - 1);
      if IsEmbedded(f) {
        var inner := Unwrap(f.typ);
        FlatPrefixLeaves(inner, |inner.fields|);
      }
    }
  }

  /** Every direct field that is not embedded is itself a leaf. */
  lemma {:induction false} DirectFieldsAreLeaves(s: GoType, n: nat, k: nat)
    requires s.Struct? && k < n <= |s.fields|
    requires !IsEmbedded(s.fields[k])
    ensures s.fields[k] in FlatPrefix(s, n)
  {
    if k < n - 1 {
      DirectFieldsAreLeaves(s, n - 1, k);
    }
  }

  /** A struct with no embedded field resolves to its own fields, unchanged and in order. */
  lemma {:induction false} FlatStructIsItself(s: GoType, n: nat)
    requires s.Struct? && n <= |s.fields|
    requires forall k :: 0 <= k < |s.fields| ==> !IsEmbedded(s.fields[k])
    ensures FlatPrefix(s, n) == s.fields[..n]
  {
    if n > 0 {
      FlatStructIsItself(s, n - 1);
      assert s.fields[..n] == s.fields[..n - 1] + [s.fields[n - 1]];
    }
  }

  // ---------------------------------------------------------------------
  // Resolved fields and the by-name index
  // ---------------------------------------------------------------------

  /** What `deepResolve` records for one leaf field. */
  function ResolveField(f: Field): ResolvedField
  {
    var gorm := TagGet(f.tag, "gorm");
    ResolvedField(
      f.name, TypeString(f.typ), JsonName(TagGet(f.tag, "json")),
      NewCosyTag(TagGet(f.tag, "cosy")), GormUnique(gorm), GormDefault(gorm))
  }

  /** `ResolveField` applied to each field in turn. */
  function ResolveFields(fs: seq<Field>): (rs: seq<ResolvedField>)
    ensures |rs| == |fs|
  {
    if fs == [] then [] else ResolveFields(fs[..|fs| - 1]) + [ResolveField(fs[|fs| - 1])]
  }

  lemma {:induction false} ResolveFieldsAt(fs: seq<Field>, i: nat)
    requires i < |fs|
    ensures ResolveFields(fs)[i] == ResolveField(fs[i])
  {
    if i < |fs| - 1 {
      ResolveFieldsAt(fs[..|fs| - 1], i);
    }
  }

  lemma {:induction false} ResolveFieldsAppend(a: seq<Field>, b: seq<Field>)
    ensures ResolveFields(a + b) == ResolveFields(a) + ResolveFields(b)
    decreases |b|
  {
    if b == [] {
      assert a + b == a;
    } else {
      assert (a + b)[..|a + b| - 1] == a + b[..|b| - 1];
      ResolveFieldsAppend(a, b[..|b| - 1]);
    }
  }

  /** What one field contributes to the resolved fields: the leaves of an embedded struct, or itself. */
  function Contribution(f: Field): seq<ResolvedField>
  {
    if IsEmbedded(f) then ResolveFields(LeafFields(Unwrap(f.typ))) else [ResolveField(f)]
  }

  /** Resolving one more field of `m` appends what that field contributes. */
  lemma ResolvePrefixStep(m: GoType, i: nat)
    requires m.Struct? && i < |m.fields|
    ensures m.fields[i] < m
    ensures ResolveFields(FlatPrefix(m, i + 1)) == ResolveFields(FlatPrefix(m, i)) + Contribution(m.fields[i])
  {
    assert m.fields[i] in m.fields;
    var f := m.fields[i];
    if IsEmbedded(f) {
      ResolveFieldsAppend(FlatPrefix(m, i), LeafFields(Unwrap(f.typ)));
    } else {
      ResolveFieldsAppend(FlatPrefix(m, i), [f]);
    }
  }

  /** The `Fields` map after storing `rs` one by one under their names. */
  function IndexByName(prev: map<string, ResolvedField>, rs: seq<ResolvedField>): map<string, ResolvedField>
  {
    if rs == [] then prev
    else IndexByName(prev, rs[..|rs| - 1])[rs[|rs| - 1].name := rs[|rs| - 1]]
  }

  lemma {:induction false} IndexByNameAppend(prev: map<string, ResolvedField>, a: seq<ResolvedField>, b: seq<ResolvedField>)
    ensures IndexByName(prev, a + b) == IndexByName(IndexByName(prev, a), b)
    decreases |b|
  {
    if b == [] {
      assert a + b == a;
    } else {
      assert (a + b)[..|a + b| - 1] == a + b[..|b| - 1];
      IndexByNameAppend(prev, a, b[..|b| - 1]);
    }
  }

  /** The index of the last entry of `rs` named `k`, or -1 when there is none. */
  function LastWithName(rs: seq<ResolvedField>, k: string): (j: int)
    ensures -1 <= j < |rs|
  {
    if rs == [] then -1
    else if rs[|rs| - 1].name == k then |rs| - 1
    else LastWithName(rs[..|rs| - 1], k)
  }

  /** `LastWithName` finds an entry named `k` with no later one of that name, or reports there is none. */
  lemma {:induction false} LastWithNameIsLast(rs: seq<ResolvedField>, k: string)
    ensures LastWithName(rs, k) == -1 <==> forall i :: 0 <= i < |rs| ==> rs[i].name != k
    ensures LastWithName(rs, k) >= 0 ==> rs[LastWithName(rs, k)].name == k
    ensures forall j :: LastWithName(rs, k) < j < |rs| ==> rs[j].name != k
  {
    if rs != [] {
      var init := rs[..|rs| - 1];
      LastWithNameIsLast(init, k);
      assert forall i :: 0 <= i < |init| ==> init[i] == rs[i];
    }
  }

  /**
   * After indexing `rs` over `prev`, a name is present iff it was before or
   * some entry has it; it then holds the last entry with that name, and the
   * other entries of `prev` are untouched.
   */
  lemma {:induction false} IndexByNameLast(prev: map<string, ResolvedField>, rs: seq<ResolvedField>, k: string)
    ensures k in IndexByName(prev, rs) <==> k in prev || LastWithName(rs, k) >= 0
    ensures LastWithName(rs, k) >= 0 ==> IndexByName(prev, rs)[k] == rs[LastWithName(rs, k)]
    ensures LastWithName(rs, k) < 0 && k in prev ==> IndexByName(prev, rs)[k] == prev[k]
  {
    if rs != [] {
      var init := rs[..|rs| - 1];
      IndexByNameLast(prev, init, k);
      if rs[|rs| - 1].name != k {
        var j := LastWithName(init, k);
        if j >= 0 {
          assert rs[j] == init[j];
        }
      }
    }
  }

  /** Duplicated names collapse, so the index never has more entries than the list. */
  lemma {:induction false} IndexByNameSize(rs: seq<ResolvedField>)
    ensures |IndexByName(map[], rs)| <= |rs|
  {
    if rs != [] {
      var init := rs[..|rs| - 1];
      IndexByNameSize(init);
      var m := IndexByName(map[], init);
      var last := rs[|rs| - 1];
      if last.name in m {
        assert m[last.name := last].Keys == m.Keys;
      } else {
        assert m[last.name := last].Keys == m.Keys + {last.name};
      }
    }
  }

  /** What resolving struct type `m` into an empty `ResolvedModel` produces. */
  function Resolve(m: GoType): (meta: ModelMeta)
    requires m.Struct?
  {
    var rs := ResolveFields(LeafFields(m));
    ModelMeta(TypeName(m), IndexByName(map[], rs), rs)
  }

  /** The resolution of a type lists one entry per leaf field, each resolved from that leaf. */
  lemma ResolveListsLeaves(m: GoType)
    requires m.Struct?
    ensures |Resolve(m).orderedFields| == LeafCount(m, |m.fields|)
    ensures forall i :: 0 <= i < |Resolve(m).orderedFields| ==>
      Resolve(m).orderedFields[i] == ResolveField(LeafFields(m)[i]) && !IsEmbedded(LeafFields(m)[i])
    ensures |Resolve(m).fields| <= |Resolve(m).orderedFields|
    ensures forall k :: k in Resolve(m).fields ==>
      exists j :: 0 <= j < |Resolve(m).orderedFields| && Resolve(m).orderedFields[j] == Resolve(m).fields[k]
        && Resolve(m).fields[k].name == k
  {
    FlatPrefixLeaves(m, |m.fields|);
    var rs := ResolveFields(LeafFields(m));
    IndexByNameSize(rs);
    forall k | k in Resolve(m).fields
      ensures exists j :: 0 <= j < |rs| && rs[j] == Resolve(m).fields[k] && Resolve(m).fields[k].name == k
    {
      IndexByNameLast(map[], rs, k);
      LastWithNameIsLast(rs, k);
      var j := LastWithName(rs, k);
      assert rs[j] == Resolve(m).fields[k];
    }
    forall i | 0 <= i < |rs|
      ensures rs[i] == ResolveField(LeafFields(m)[i]) && !IsEmbedded(LeafFields(m)[i])
    {
      ResolveFieldsAt(LeafFields(m), i);
      assert LeafFields(m)[i] in LeafFields(m);
    }
  }

  /** `*ResolvedModel`: filled field by field by `deepResolve`. */
  class ResolvedModel {
    var name: string
    var fields: map<string, ResolvedField>
    var orderedFields: seq<ResolvedField>

    function View(): ModelMeta
      reads this
    {
      ModelMeta(name, fields, orderedFields)
    }

    constructor (name: string)
      ensures View() == ModelMeta(name, map[], [])
    {
      this.name := name;
      fields := map[];
      orderedFields := [];
    }

    /**
     * `deepResolve(r, m)`: appends the leaf fields of `m` to `OrderedFields`
     * in order and stores each under its name in `Fields`.
     */
    method DeepResolve(m: GoType)
      requires m.Struct?
      modifies this`fields, this`orderedFields
      ensures orderedFields == old(orderedFields) + ResolveFields(LeafFields(m))
      ensures fields == IndexByName(old(fields), ResolveFields(LeafFields(m)))
      decreases m, 1
    {
      var i := 0;
      assert ResolveFields(FlatPrefix(m, 0)) == [];
      assert IndexByName(fields, []) == fields;
      while i < |m.fields|
        invariant 0 <= i <= |m.fields|
        invariant orderedFields == old(orderedFields) + ResolveFields(FlatPrefix(m, i))
        invariant fields == IndexByName(old(fields), ResolveFields(FlatPrefix(m, i)))
      {
        ResolvePrefixStep(m, i);
        ResolveInto(m.fields[i]);
        PrefixStepInvariant(old(orderedFields), old(fields), ResolveFields(FlatPrefix(m, i)),
                            Contribution(m.fields[i]), ResolveFields(FlatPrefix(m, i + 1)));
        i := i + 1;
      }
    }

    /**
     * One iteration of the loop of `deepResolve`: an embedded struct, or a
     * pointer to one, is resolved in turn; any other field is described and
     * recorded.
     */
    method ResolveInto(field: Field)
      modifies this`fields, this`orderedFields
      ensures orderedFields == old(orderedFields) + Contribution(field)
      ensures fields == IndexByName(old(fields), Contribution(field))
      decreases field, 0
    {
      var fieldType := field.typ;
      if fieldType.Ptr? && fieldType.elem.Struct? {
        fieldType := fieldType.elem;
      }
      if fieldType.Struct? && field.anonymous {
        assert IsEmbedded(field) && fieldType == Unwrap(field.typ);
        DeepResolve(fieldType);
      } else {
        var resolvedField := ResolveLeaf(field);
        assert IndexByName(fields, [resolvedField]) == fields[field.name := resolvedField];
        Record(resolvedField);
      }
    }

    /** The two writes of `deepResolve` for one leaf field. */
    method Record(resolvedField: ResolvedField)
      modifies this`fields, this`orderedFields
      ensures fields == old(fields)[resolvedField.name := resolvedField]
      ensures orderedFields == old(orderedFields) + [resolvedField]
    {
      fields := fields[resolvedField.name := resolvedField];
      orderedFields := orderedFields + [resolvedField];
    }
  }

  /**
   * The description `deepResolve` builds for a field that is not embedded:
   * its name and type string, the JSON name, the `cosy` tag, and the default
   * value and unique flag scanned from the `gorm` tag.
   */
  method ResolveLeaf(field: Field) returns (resolvedField: ResolvedField)
    ensures resolvedField == ResolveField(field)
  {
    var jsonTag := JsonName(TagGet(field.tag, "json"));
    var defaultValue, unique := ParseGormTag(TagGet(field.tag, "gorm"));
    resolvedField := ResolvedField(
      field.name, TypeString(field.typ), jsonTag,
      NewCosyTag(TagGet(field.tag, "cosy")), unique, defaultValue);
  }

  /**
   * The loop invariant of `deepResolve` carries over one more field: when the
   * resolved prefix grows from `done` to `next` by `added`, appending and
   * storing `added` gives the state for `next`.
   */
  lemma PrefixStepInvariant(ordered0: seq<ResolvedField>, fields0: map<string, ResolvedField>,
                            done: seq<ResolvedField>, added: seq<ResolvedField>, next: seq<ResolvedField>)
    requires next == done + added
    ensures (ordered0 + done) + added == ordered0 + next
    ensures IndexByName(IndexByName(fields0, done), added) == IndexByName(fields0, next)
  {
    assert (ordered0 + done) + added == ordered0 + (done + added);
    IndexByNameAppend(fields0, done, added);
  }

  /** A fresh `ResolvedModel` for struct type `m`, as built in the loop of `ResolvedModels`. */
  method NewResolvedModel(m: GoType) returns (r: ResolvedModel)
    requires m.Struct?
    ensures fresh(r) && r.View() == Resolve(m)
  {
    r := new ResolvedModel(TypeName(m));
    r.DeepResolve(m);
  }

  /** The contents of every model in a name-keyed map of models. */
  function Snapshot(models: map<string, ResolvedModel>): map<string, ModelMeta>
    reads models.Values
  {
    map n | n in models :: models[n].View()
  }

  lemma SnapshotUpdate(models: map<string, ResolvedModel>, r: ResolvedModel)
    ensures Snapshot(models[r.name := r]) == Snapshot(models)[r.name := r.View()]
  {
  }

  /** The resolved-model table after resolving `ms` in order over `prev`. */
  function ResolveAll(prev: map<string, ModelMeta>, ms: seq<GoType>): map<string, ModelMeta>
    requires forall i :: 0 <= i < |ms| ==> ms[i].Struct?
  {
    if ms == [] then prev
    else
      var last := ms[|ms| - 1];
      ResolveAll(prev, ms[..|ms| - 1])[TypeName(last) := Resolve(last)]
  }

  /** Resolving one more type stores its resolution under its name. */
  lemma ResolveAllStep(prev: map<string, ModelMeta>, ms: seq<GoType>, i: nat)
    requires forall j :: 0 <= j < |ms| ==> ms[j].Struct?
    requires i < |ms|
    ensures ResolveAll(prev, ms[..i + 1]) == ResolveAll(prev, ms[..i])[TypeName(ms[i]) := Resolve(ms[i])]
  {
    assert ms[..i + 1][..i] == ms[..i];
  }

  /** The index of the last type in `ms` named `n`, or -1 when there is none. */
  function LastNamed(ms: seq<GoType>, n: string): (k: int)
    ensures -1 <= k < |ms|
  {
    if ms == [] then -1
    else if TypeName(ms[|ms| - 1]) == n then |ms| - 1
    else LastNamed(ms[..|ms| - 1], n)
  }

  /** `LastNamed` finds a type named `n` with no later one of that name, or reports there is none. */
  lemma {:induction false} LastNamedIsLast(ms: seq<GoType>, n: string)
    ensures LastNamed(ms, n) == -1 <==> forall i :: 0 <= i < |ms| ==> TypeName(ms[i]) != n
    ensures LastNamed(ms, n) >= 0 ==> TypeName(ms[LastNamed(ms, n)]) == n
    ensures forall j :: LastNamed(ms, n) < j < |ms| ==> TypeName(ms[j]) != n
  {
    if ms != [] {
      var init := ms[..|ms| - 1];
      LastNamedIsLast(init, n);
      assert forall i :: 0 <= i < |init| ==> init[i] == ms[i];
    }
  }

  /**
   * After resolving, a name is present iff it was before or some
   * registered type has it; a registered name holds the resolution of the
   * last type with that name; other entries are untouched.
   */
  lemma {:induction false} ResolveAllLastWins(prev: map<string, ModelMeta>, ms: seq<GoType>, n: string)
    requires forall i :: 0 <= i < |ms| ==> ms[i].Struct?
    ensures n in ResolveAll(prev, ms) <==> n in prev || LastNamed(ms, n) >= 0
    ensures LastNamed(ms, n) >= 0 ==> ResolveAll(prev, ms)[n] == Resolve(ms[LastNamed(ms, n)])
    ensures LastNamed(ms, n) < 0 && n in prev ==> ResolveAll(prev, ms)[n] == prev[n]
  {
    if ms != [] {
      var init, last := ms[..|ms| - 1], ms[|ms| - 1];
      assert forall i :: 0 <= i < |init| ==> init[i] == ms[i];
      ResolveAllLastWins(prev, init, n);
      assert ResolveAll(prev, ms) == ResolveAll(prev, init)[TypeName(last) := Resolve(last)];
      if TypeName(last) == n {
        assert LastNamed(ms, n) == |ms| - 1;
      } else {
        var j := LastNamed(init, n);
        assert LastNamed(ms, n) == j;
        if j >= 0 {
          assert ms[j] == init[j];
        }
      }
    }
  }

  /**
   * The process-wide state of `model/models.go`: the registered types
   * (`collection`) and the resolved table (`resolvedModelMap`).
   */
  class ModelRegistry {
    var collection: seq<GoType>
    var resolvedModelMap: map<string, ResolvedModel>

    constructor ()
      ensures collection == [] && resolvedModelMap == map[]
    {
      collection := [];
      resolvedModelMap := map[];
    }

    /** `GenerateAllModel`: the registered types, as they stand. */
    method GenerateAllModel() returns (models: seq<GoType>)
      ensures models == collection
    {
      models := collection;
    }

    /** `RegisterModels`: the arguments go after the existing entries, in order. */
    method RegisterModels(models: seq<GoType>)
      modifies this`collection
      ensures collection == old(collection) + models
    {
      collection := collection + models;
    }

    /** `ClearCollection`: nothing stays registered. */
    method ClearCollection()
      modifies this`collection
      ensures collection == []
    {
      collection := [];
    }

    /**
     * `ResolvedModels`: resolves every registered type into a fresh
     * `ResolvedModel` and stores it under its type name, later types
     * replacing earlier ones of the same name.
     */
    method ResolvedModels()
      requires forall i :: 0 <= i < |collection| ==> collection[i].Struct?
      modifies this`resolvedModelMap
      ensures Snapshot(resolvedModelMap) == ResolveAll(old(Snapshot(resolvedModelMap)), collection)
    {
      ghost var start := Snapshot(resolvedModelMap);
      var i := 0;
      while i < |collection|
        invariant 0 <= i <= |collection|
        invariant Snapshot(resolvedModelMap) == ResolveAll(start, collection[..i])
      {
        var m := collection[i];
        Store(m);
        ResolveAllStep(start, collection, i);
        i := i + 1;
      }
      assert collection[..i] == collection;
    }

    /** One iteration of `ResolvedModels`: resolve `m` into a fresh model and store it under its name. */
    method Store(m: GoType)
      requires m.Struct?
      modifies this`resolvedModelMap
      ensures Snapshot(resolvedModelMap) == old(Snapshot(resolvedModelMap))[TypeName(m) := Resolve(m)]
    {
      var r := NewResolvedModel(m);
      assert Snapshot(resolvedModelMap) == old(Snapshot(resolvedModelMap)) by {
        assert r !in resolvedModelMap.Values;
      }
      SnapshotUpdate(resolvedModelMap, r);
      resolvedModelMap := resolvedModelMap[r.name := r];
    }

    /** `GetResolvedModel[T]`: the model stored under T's name, or nil. */
    method GetResolvedModel(t: GoType) returns (r: ResolvedModel?)
      ensures TypeName(t) in resolvedModelMap ==> r == resolvedModelMap[TypeName(t)]
      ensures TypeName(t) !in resolvedModelMap ==> r == null
    {
      var name := TypeName(t);
      if name in resolvedModelMap {
        r := resolvedModelMap[name];
      } else {
        r := null;
      }
    }
  }
}
