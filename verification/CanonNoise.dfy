/** Kubernetes objects on the heap: stripping noise fields in place, on a deep copy (internal/canon/noise.go,
    internal/canon/k8s.go). Slices are never written to, so they are values here; maps are objects. */
module CanonNoise {

  // Documents as values

  datatype Json =
    | Scalar(isString: bool, text: string)
    | List(items: seq<Json>)
    | Object(fields: map<string, Json>)

  const METADATA_NOISE := {"uid", "resourceVersion", "generation", "creationTimestamp", "deletionTimestamp",
                           "deletionGracePeriodSeconds", "managedFields", "selfLink", "generateName"}

  predicate NoisyAnnotation(key: string) {
    "kubectl.kubernetes.io/" <= key || "deployment.kubernetes.io/" <= key || "control-plane.alpha.kubernetes.io/" <= key
  }

  function NoisyKeys(keys: set<string>): set<string> {
    set k | k in keys && NoisyAnnotation(k)
  }

  function WithoutNoisyAnnotations(rest: map<string, Json>): map<string, Json> {
    if "annotations" in rest && rest["annotations"].Object? then
      var kept := rest["annotations"].fields - NoisyKeys(rest["annotations"].fields.Keys);
      if kept == map[] then rest - {"annotations"} else rest["annotations" := Object(kept)]
    else rest
  }

  function StripMetadata(metadata: map<string, Json>): map<string, Json> {
    WithoutNoisyAnnotations(metadata - METADATA_NOISE)
  }

  /** A document's fields without the noise. */
  function Strip(fields: map<string, Json>): map<string, Json> {
    var rest := fields - {"status"};
    if "metadata" in rest && rest["metadata"].Object? then
      rest["metadata" := Object(StripMetadata(rest["metadata"].fields))]
    else rest
  }

  lemma KeptStaysKept(annotations: map<string, Json>)
    ensures var kept := annotations - NoisyKeys(annotations.Keys); kept - NoisyKeys(kept.Keys) == kept
  {
    var kept := annotations - NoisyKeys(annotations.Keys);
    assert NoisyKeys(kept.Keys) == {};
  }

  lemma StripMetadataTwice(metadata: map<string, Json>)
    ensures StripMetadata(StripMetadata(metadata)) == StripMetadata(metadata)
  {
    hide NoisyKeys;
    var rest := metadata - METADATA_NOISE;
    var once := StripMetadata(metadata);
    assert "annotations" !in METADATA_NOISE;
    assert once - METADATA_NOISE == once;
    if "annotations" in rest && rest["annotations"].Object? {
      KeptStaysKept(rest["annotations"].fields);
    }
  }

  /** Stripping the noise twice is stripping it once. */
  lemma StripTwice(fields: map<string, Json>)
    ensures Strip(Strip(fields)) == Strip(fields)
  {
    hide StripMetadata;
    var rest := fields - {"status"};
    assert Strip(fields) - {"status"} == Strip(fields);
    if "metadata" in rest && rest["metadata"].Object? {
      StripMetadataTwice(rest["metadata"].fields);
    }
  }

  /** Exactly the noise goes: the status, the listed metadata fields, and annotations under the listed prefixes, together
      with an annotation map that has none left. All else stays as it was. */
  lemma StripRemovesExactlyNoise(fields: map<string, Json>)
    ensures Strip(fields).Keys == fields.Keys - {"status"}
    ensures forall k :: k in Strip(fields) && k != "metadata" ==> Strip(fields)[k] == fields[k]
    ensures "metadata" in fields && !fields["metadata"].Object? ==> Strip(fields)["metadata"] == fields["metadata"]
    ensures "metadata" in fields && fields["metadata"].Object? ==>
              && Strip(fields)["metadata"].Object?
              && StrippedMetadata(fields["metadata"].fields, Strip(fields)["metadata"].fields)
  {
    if "metadata" in fields && fields["metadata"].Object? {
      MetadataStripped(fields["metadata"].fields);
    }
  }

  /** The fields of the metadata that the server fills in. */
  predicate IsServerField(k: string) {
    || k == "uid" || k == "resourceVersion" || k == "generation" || k == "creationTimestamp" || k == "deletionTimestamp"
    || k == "deletionGracePeriodSeconds" || k == "managedFields" || k == "selfLink" || k == "generateName"
  }

  predicate HasNoisyPrefix(k: string) {
    StartsWith(k, "kubectl.kubernetes.io/") || StartsWith(k, "deployment.kubernetes.io/") || StartsWith(k, "control-plane.alpha.kubernetes.io/")
  }

  predicate StartsWith(s: string, prefix: string) {
    |s| >= |prefix| && forall i | 0 <= i < |prefix| :: s[i] == prefix[i]
  }

  lemma NoisyIsPrefixed(k: string)
    ensures NoisyAnnotation(k) <==> HasNoisyPrefix(k)
  {
    PrefixIsStart(k, "kubectl.kubernetes.io/");
    PrefixIsStart(k, "deployment.kubernetes.io/");
    PrefixIsStart(k, "control-plane.alpha.kubernetes.io/");
  }

  lemma PrefixIsStart(s: string, prefix: string)
    ensures prefix <= s <==> StartsWith(s, prefix)
  {
  }

  ghost predicate StrippedMetadata(before: map<string, Json>, after: map<string, Json>) {
    && (forall k :: k != "annotations" ==> (k in after <==> k in before && !IsServerField(k)))
    && (forall k :: k in after && k != "annotations" ==> after[k] == before[k])
    && ("annotations" in after ==> "annotations" in before)
    && ("annotations" in before && !before["annotations"].Object? ==> "annotations" in after && after["annotations"] == before["annotations"])
    && ("annotations" in before && before["annotations"].Object? ==>
          var was := before["annotations"].fields;
          && ("annotations" in after <==> exists k :: k in was && !HasNoisyPrefix(k))
          && ("annotations" in after ==>
                && after["annotations"].Object?
                && (forall k :: k in after["annotations"].fields <==> k in was && !HasNoisyPrefix(k))
                && (forall k :: k in after["annotations"].fields ==> after["annotations"].fields[k] == was[k])))
  }

  lemma MetadataStripped(metadata: map<string, Json>)
    ensures StrippedMetadata(metadata, StripMetadata(metadata))
  {
    hide NoisyAnnotation, HasNoisyPrefix;
    forall k ensures NoisyAnnotation(k) <==> HasNoisyPrefix(k) {
      NoisyIsPrefixed(k);
    }
    var rest := metadata - METADATA_NOISE;
    assert "annotations" in metadata <==> "annotations" in rest;
    if "annotations" in rest && rest["annotations"].Object? {
      var was := rest["annotations"].fields;
      var kept := was - NoisyKeys(was.Keys);
      if kept != map[] {
        var k :| k in kept;
        assert k in was && !NoisyAnnotation(k);
      } else {
        forall k | k in was ensures NoisyAnnotation(k) {
          assert k !in kept;
        }
      }
    }
  }

  // Documents on the heap

  datatype Value = ScalarValue(isString: bool, text: string) | ListValue(items: seq<Value>) | MapValue(m: MapObject)

  class MapObject {
    var fields: map<string, Value>
    ghost var repr: set<MapObject>

    constructor (fields: map<string, Value>, ghost below: set<MapObject>)
      ensures this.fields == fields && repr == below + {this}
    {
      this.fields := fields;
      this.repr := below + {this};
    }
  }

  /** The maps a value holds without going through another map. */
  ghost function Held(v: Value): set<MapObject> {
    match v
    case ScalarValue(_, _) => {}
    case MapValue(m) => {m}
    case ListValue(items) => HeldBy(items)
  }

  ghost function HeldBy(items: seq<Value>): set<MapObject> {
    if items == [] then {} else Held(items[0]) + HeldBy(items[1..])
  }

  /** A value all of whose maps are covered by the set. */
  ghost predicate Covered(v: Value, below: set<MapObject>)
    reads below
    decreases below, 2
  {
    forall n :: n in Held(v) ==> n in below && n.repr <= below && Valid(n)
  }

  ghost predicate CoveredFields(fields: map<string, Value>, below: set<MapObject>)
    reads below
    decreases below, 3
  {
    forall k :: k in fields ==> Covered(fields[k], below)
  }

  /** No map contains itself, and `repr` covers what hangs below it. */
  ghost predicate Valid(m: MapObject)
    reads m, m.repr
    decreases m.repr, 1
  {
    m in m.repr && CoveredFields(m.fields, m.repr - {m})
  }

  /** The document a map stands for. */
  ghost function Doc(m: MapObject): map<string, Json>
    requires Valid(m)
    reads m, m.repr
    decreases m.repr, 1
  {
    FieldDocs(m.fields, m.repr - {m})
  }

  ghost function FieldDocs(fields: map<string, Value>, below: set<MapObject>): (docs: map<string, Json>)
    requires CoveredFields(fields, below)
    reads below
    ensures docs.Keys == fields.Keys
    decreases below, 3
  {
    map k | k in fields :: ValueDoc(fields[k], below)
  }

  ghost function ValueDoc(v: Value, below: set<MapObject>): Json
    requires Covered(v, below)
    reads below
    decreases below, 2, v
  {
    match v
    case ScalarValue(isString, text) => Scalar(isString, text)
    case MapValue(m) => Object(Doc(m))
    case ListValue(items) => List(ItemDocs(items, below))
  }

  ghost function ItemDocs(items: seq<Value>, below: set<MapObject>): seq<Json>
    requires Covered(ListValue(items), below)
    reads below
    decreases below, 2, items
  {
    if items == [] then []
    else
      ItemsCovered(items, below);
      [ValueDoc(items[0], below)] + ItemDocs(items[1..], below)
  }

  lemma ItemsCovered(items: seq<Value>, below: set<MapObject>)
    requires items != [] && Covered(ListValue(items), below)
    ensures Covered(items[0], below) && Covered(ListValue(items[1..]), below)
  {
    assert HeldBy(items) == Held(items[0]) + HeldBy(items[1..]);
    assert Held(ListValue(items[1..])) == HeldBy(items[1..]);
  }

  /** Which covering set is used makes no difference to the document. */
  lemma {:induction false} AnyCover(v: Value, a: set<MapObject>, b: set<MapObject>)
    requires Covered(v, a) && Covered(v, b)
    ensures ValueDoc(v, a) == ValueDoc(v, b)
  {
    match v
    case ListValue(items) => AnyCoverItems(items, a, b);
    case _ =>
  }

  lemma {:induction false} AnyCoverItems(items: seq<Value>, a: set<MapObject>, b: set<MapObject>)
    requires Covered(ListValue(items), a) && Covered(ListValue(items), b)
    ensures ItemDocs(items, a) == ItemDocs(items, b)
  {
    hide Covered;
    if items != [] {
      ItemsCovered(items, a);
      ItemsCovered(items, b);
      AnyCover(items[0], a, b);
      AnyCoverItems(items[1..], a, b);
    }
  }

  /** No map hangs below two fields, here or in a map further down. */
  ghost predicate TidyFields(fields: map<string, Value>, below: set<MapObject>)
    requires CoveredFields(fields, below)
    reads below
    decreases below, 3
  {
    && (forall k, l, n, o :: k in fields && l in fields && k != l && n in Held(fields[k]) && o in Held(fields[l])
                             ==> Covered(fields[k], below) && Covered(fields[l], below) && n.repr !! o.repr)
    && (forall k :: k in fields && fields[k].MapValue? ==> Covered(fields[k], below) && Tidy(fields[k].m))
  }

  ghost predicate Tidy(m: MapObject)
    requires Valid(m)
    reads m, m.repr
    decreases m.repr, 1
  {
    TidyFields(m.fields, m.repr - {m})
  }

  lemma FieldCovered(fields: map<string, Value>, below: set<MapObject>, k: string)
    requires CoveredFields(fields, below) && k in fields
    ensures Covered(fields[k], below)
    ensures fields[k].MapValue? ==>
              && fields[k].m in below && fields[k].m in fields[k].m.repr && fields[k].m.repr <= below
              && Valid(fields[k].m) && ValueDoc(fields[k], below) == Object(Doc(fields[k].m))
  {
    if fields[k].MapValue? {
      assert fields[k].m in Held(fields[k]);
      assert Valid(fields[k].m);
    }
  }

  // Copying

  /** A value copied to maps of its own. */
  ghost predicate Copied(v: Value, part: set<MapObject>, original: Value, below: set<MapObject>)
    reads part, below
  {
    && Covered(v, part) && Covered(original, below)
    && ValueDoc(v, part) == ValueDoc(original, below)
    && (v.MapValue? ==> v.m in part && Tidy(v.m))
  }

  /** Some fields copied, each to maps of its own out of `all`. */
  ghost predicate PartsCopied(fields: map<string, Value>, below: set<MapObject>, result: map<string, Value>,
                              parts: map<string, set<MapObject>>, all: set<MapObject>)
    reads below, all
  {
    && result.Keys == parts.Keys <= fields.Keys
    && (forall k :: k in parts ==> parts[k] <= all && Copied(result[k], parts[k], fields[k], below))
    && (forall k, l :: k in parts && l in parts && k != l ==> parts[k] !! parts[l])
  }

  lemma AddPart(fields: map<string, Value>, below: set<MapObject>, result: map<string, Value>,
                parts: map<string, set<MapObject>>, all: set<MapObject>, k: string, v: Value, part: set<MapObject>)
    requires PartsCopied(fields, below, result, parts, all) && k in fields && k !in parts
    requires part !! all && Copied(v, part, fields[k], below)
    ensures PartsCopied(fields, below, result[k := v], parts[k := part], all + part)
  {
    hide Copied;
  }

  lemma NothingCopied(fields: map<string, Value>, below: set<MapObject>)
    ensures PartsCopied(fields, below, map[], map[], {})
  {
  }

  lemma AllCopied(fields: map<string, Value>, below: set<MapObject>, result: map<string, Value>,
                  parts: map<string, set<MapObject>>, all: set<MapObject>)
    requires CoveredFields(fields, below) && PartsCopied(fields, below, result, parts, all) && result.Keys == fields.Keys
    ensures CoveredFields(result, all)
    ensures TidyFields(result, all)
    ensures FieldDocs(result, all) == FieldDocs(fields, below)
  {
    hide Valid, Doc, Tidy, ValueDoc;
    forall k | k in result ensures Covered(result[k], all) && ValueDoc(result[k], all) == ValueDoc(fields[k], below) {
      assert Copied(result[k], parts[k], fields[k], below);
      assert Covered(result[k], all);
      AnyCover(result[k], parts[k], all);
    }
  }

  /** The copy shares no map with the original, nor with anything that was there before, and stands for the same document. */
  method DeepCopyMap(m: MapObject) returns (r: MapObject)
    requires Valid(m)
    ensures fresh(r.repr) && Valid(r) && Tidy(r)
    ensures Doc(r) == Doc(m)
    decreases m.repr, 1
  {
    hide CoveredFields, TidyFields, FieldDocs, Doc, Valid, Tidy;
    OwnFields(m);
    var result, all := CopyFields(m.fields, m.repr - {m});
    r := new MapObject(result, all);
    CopyIsValid(m, r, all);
  }

  method CopyFields(fields: map<string, Value>, ghost below: set<MapObject>) returns (result: map<string, Value>, ghost all: set<MapObject>)
    requires CoveredFields(fields, below)
    ensures fresh(all) && CoveredFields(result, all) && TidyFields(result, all)
    ensures FieldDocs(result, all) == FieldDocs(fields, below)
    decreases below, 3
  {
    hide Copied, Covered, PartsCopied, TidyFields, FieldDocs, CoveredFields;
    result, all := map[], {};
    ghost var parts: map<string, set<MapObject>> := map[];
    var keys := fields.Keys;
    NothingCopied(fields, below);
    while keys != {}
      invariant keys <= fields.Keys && result.Keys == parts.Keys == fields.Keys - keys
      invariant fresh(all)
      invariant PartsCopied(fields, below, result, parts, all)
      decreases |keys|
    {
      var k :| k in keys;
      keys := keys - {k};
      FieldCovered(fields, below, k);
      var v, part := DeepCopyValue(fields[k], below);
      AddPart(fields, below, result, parts, all, k, v, part);
      result := result[k := v];
      all := all + part;
      parts := parts[k := part];
    }
    AllCopied(fields, below, result, parts, all);
  }

  lemma OwnFields(m: MapObject)
    requires Valid(m)
    ensures m in m.repr && CoveredFields(m.fields, m.repr - {m}) && Doc(m) == FieldDocs(m.fields, m.repr - {m})
  {
  }

  lemma CopyIsValid(m: MapObject, r: MapObject, all: set<MapObject>)
    requires Valid(m) && r !in all && r.repr == all + {r}
    requires CoveredFields(r.fields, all) && TidyFields(r.fields, all)
    requires FieldDocs(r.fields, all) == FieldDocs(m.fields, m.repr - {m})
    ensures Valid(r) && Tidy(r) && Doc(r) == Doc(m)
  {
    hide CoveredFields, TidyFields, FieldDocs;
    assert r.repr - {r} == all;
  }

  method DeepCopyValue(v: Value, ghost below: set<MapObject>) returns (r: Value, ghost part: set<MapObject>)
    requires Covered(v, below)
    ensures fresh(part) && Copied(r, part, v, below)
    decreases below, 2, v
  {
    match v
    case ScalarValue(_, _) =>
      r, part := v, {};
    case MapValue(m) =>
      var copy := DeepCopyMap(m);
      r, part := MapValue(copy), copy.repr;
    case ListValue(items) =>
      var copies;
      copies, part := DeepCopySlice(items, below);
      r := ListValue(copies);
  }

  method DeepCopySlice(items: seq<Value>, ghost below: set<MapObject>) returns (r: seq<Value>, ghost part: set<MapObject>)
    requires Covered(ListValue(items), below)
    ensures fresh(part) && Covered(ListValue(r), part)
    ensures ItemDocs(r, part) == ItemDocs(items, below)
    decreases below, 2, items
  {
    if items == [] {
      return [], {};
    }
    ItemsCovered(items, below);
    var first, firstPart := DeepCopyValue(items[0], below);
    var rest, restPart := DeepCopySlice(items[1..], below);
    r, part := [first] + rest, firstPart + restPart;
    assert r[1..] == rest && HeldBy(r) == Held(first) + HeldBy(rest);
    AnyCover(first, firstPart, part);
    AnyCoverItems(rest, restPart, part);
  }

  // Stripping in place

  lemma WithoutKeys(fields: map<string, Value>, below: set<MapObject>, keys: set<string>)
    requires CoveredFields(fields, below)
    ensures CoveredFields(fields - keys, below)
    ensures FieldDocs(fields - keys, below) == FieldDocs(fields, below) - keys
    ensures TidyFields(fields, below) ==> TidyFields(fields - keys, below)
  {
    hide Covered, ValueDoc, Tidy;
  }

  /** Deleting keys of a map deletes them from its document. */
  method DeleteKeys(m: MapObject, keys: set<string>)
    requires Valid(m)
    modifies m`fields
    ensures m.fields == old(m.fields) - keys && m.repr == old(m.repr)
    ensures Valid(m) && Doc(m) == old(Doc(m)) - keys
    ensures old(Tidy(m)) ==> Tidy(m)
  {
    hide CoveredFields, FieldDocs, TidyFields;
    WithoutKeys(m.fields, m.repr - {m}, keys);
    m.fields := m.fields - keys;
  }

  /** What hangs below the other fields is apart from what hangs below this one. */
  lemma Separate(fields: map<string, Value>, below: set<MapObject>, key: string)
    requires CoveredFields(fields, below) && TidyFields(fields, below)
    requires key in fields && fields[key].MapValue?
    ensures var others := below - fields[key].m.repr;
            && CoveredFields(fields - {key}, others)
            && FieldDocs(fields - {key}, others) == FieldDocs(fields, below) - {key}
  {
    hide Valid, ValueDoc, Tidy;
    var others := below - fields[key].m.repr;
    assert fields[key].m in Held(fields[key]);
    forall k | k in fields - {key} ensures Covered(fields[k], others) && ValueDoc(fields[k], others) == ValueDoc(fields[k], below) {
      CoverApart(fields, below, k, key);
      AnyCover(fields[k], others, below);
    }
  }

  lemma CoverApart(fields: map<string, Value>, below: set<MapObject>, k: string, key: string)
    requires CoveredFields(fields, below) && TidyFields(fields, below)
    requires k in fields && key in fields && k != key && fields[key].MapValue?
    ensures Covered(fields[k], below) && Covered(fields[k], below - fields[key].m.repr)
  {
    hide ValueDoc, Tidy;
    var inner := fields[key].m;
    assert inner in Held(fields[key]);
    assert Covered(fields[k], below);
    forall n | n in Held(fields[k]) ensures n in below - inner.repr && n.repr <= below - inner.repr {
      assert Valid(n) && n.repr !! inner.repr;
    }
  }

  /** The fields put together again after a change below one of them. */
  lemma Together(fields: map<string, Value>, below: set<MapObject>, key: string, others: set<MapObject>)
    requires key in fields && fields[key].MapValue?
    requires CoveredFields(fields - {key}, others) && others <= below
    requires Valid(fields[key].m) && fields[key].m.repr <= below
    ensures CoveredFields(fields, below)
    ensures FieldDocs(fields, below) == FieldDocs(fields - {key}, others)[key := Object(Doc(fields[key].m))]
  {
    hide Doc;
    var rest := fields - {key};
    assert fields[key].m in fields[key].m.repr;
    forall k | k in fields ensures Covered(fields[k], below) {
      if k != key {
        assert Covered(rest[k], others);
      }
    }
    forall k | k in rest ensures ValueDoc(fields[k], below) == ValueDoc(rest[k], others) {
      assert Covered(rest[k], others);
      AnyCover(fields[k], others, below);
    }
  }

  lemma Inner(m: MapObject, key: string)
    requires Valid(m) && Tidy(m) && key in m.fields && m.fields[key].MapValue?
    ensures var inner := m.fields[key].m;
            && m in m.repr && inner in inner.repr && inner.repr <= m.repr - {m}
            && Valid(inner) && Tidy(inner)
            && CoveredFields(m.fields - {key}, m.repr - {m} - inner.repr)
            && FieldDocs(m.fields - {key}, m.repr - {m} - inner.repr) == Doc(m) - {key}
  {
    hide CoveredFields, FieldDocs;
    FieldCovered(m.fields, m.repr - {m}, key);
    Separate(m.fields, m.repr - {m}, key);
  }

  lemma Outer(m: MapObject, key: string, others: set<MapObject>, docs: map<string, Json>)
    requires m in m.repr && key in m.fields && m.fields[key].MapValue?
    requires CoveredFields(m.fields - {key}, others) && others <= m.repr - {m}
    requires FieldDocs(m.fields - {key}, others) == docs - {key}
    requires Valid(m.fields[key].m) && m.fields[key].m.repr <= m.repr - {m}
    ensures Valid(m) && Doc(m) == docs[key := Object(Doc(m.fields[key].m))]
  {
    hide CoveredFields, FieldDocs;
    Together(m.fields, m.repr - {m}, key, others);
  }

  /** A field is a map exactly when its document is an object. */
  lemma FieldKind(m: MapObject, key: string)
    requires Valid(m)
    ensures Doc(m).Keys == m.fields.Keys
    ensures key in m.fields ==> (Doc(m)[key].Object? <==> m.fields[key].MapValue?)
    ensures key in m.fields && m.fields[key].MapValue? ==> Valid(m.fields[key].m) && Doc(m)[key] == Object(Doc(m.fields[key].m))
  {
    if key in m.fields {
      FieldCovered(m.fields, m.repr - {m}, key);
      assert Doc(m)[key] == ValueDoc(m.fields[key], m.repr - {m});
    }
  }

  lemma NoisyStep(all: set<string>, keys: set<string>, key: string)
    requires keys <= all && key in keys
    ensures NoisyKeys(all - (keys - {key})) == NoisyKeys(all - keys) + if NoisyAnnotation(key) then {key} else {}
  {
  }

  lemma MinusBoth(docs: map<string, Json>, a: set<string>, b: set<string>)
    ensures docs - a - b == docs - (a + b)
  {
  }

  method RemoveAnnotationNoise(annotations: MapObject)
    requires Valid(annotations)
    modifies annotations`fields
    ensures Valid(annotations) && annotations.repr == old(annotations.repr)
    ensures Doc(annotations) == old(Doc(annotations)) - NoisyKeys(old(Doc(annotations)).Keys)
  {
    assert NoisyKeys({}) == {};
    hide Valid, Doc, Tidy, NoisyAnnotation, NoisyKeys;
    ghost var docs := Doc(annotations);
    FieldKind(annotations, "");
    var all := annotations.fields.Keys;
    var keys := all;
    assert all - keys == {};
    while keys != {}
      invariant keys <= all
      invariant Valid(annotations) && annotations.repr == old(annotations.repr)
      invariant Doc(annotations) == docs - NoisyKeys(all - keys)
      decreases |keys|
    {
      var key :| key in keys;
      NoisyStep(all, keys, key);
      ghost var noisy := NoisyKeys(all - keys);
      keys := keys - {key};
      if NoisyAnnotation(key) {
        DeleteKeys(annotations, {key});
        MinusBoth(docs, noisy, {key});
      }
    }
    assert all - keys == all;
  }

  method StripAnnotations(metadata: MapObject)
    requires Valid(metadata) && Tidy(metadata)
    requires "annotations" in metadata.fields && metadata.fields["annotations"].MapValue?
    modifies metadata.repr
    ensures Valid(metadata) && metadata.repr == old(metadata.repr)
    ensures Doc(metadata) == WithoutNoisyAnnotations(old(Doc(metadata)))
  {
    hide Valid, Doc, Tidy, CoveredFields, FieldDocs, TidyFields, NoisyKeys;
    ghost var docs := Doc(metadata);
    Inner(metadata, "annotations");
    FieldKind(metadata, "annotations");
    var annotations := metadata.fields["annotations"].m;
    ghost var others := metadata.repr - {metadata} - annotations.repr;
    RemoveAnnotationNoise(annotations);
    Outer(metadata, "annotations", others, docs);
    FieldKind(annotations, "");
    if annotations.fields.Keys == {} {
      DeleteKeys(metadata, {"annotations"});
    }
  }

  method RemoveMetadataNoise(metadata: MapObject)
    requires Valid(metadata) && Tidy(metadata)
    modifies metadata.repr
    ensures Valid(metadata) && metadata.repr == old(metadata.repr)
    ensures Doc(metadata) == StripMetadata(old(Doc(metadata)))
  {
    hide Valid, Doc, Tidy, CoveredFields, FieldDocs, TidyFields, NoisyKeys;
    OwnMap(metadata);
    DeleteKeys(metadata, METADATA_NOISE);
    FieldKind(metadata, "annotations");
    if "annotations" !in metadata.fields || !metadata.fields["annotations"].MapValue? {
      return;
    }
    StripAnnotations(metadata);
  }

  lemma OwnMap(m: MapObject)
    requires Valid(m)
    ensures m in m.repr
  {
  }

  /** Strip the noise from a document in place. */
  method RemoveK8sNoiseFields(m: MapObject)
    requires Valid(m) && Tidy(m)
    modifies m.repr
    ensures Valid(m) && m.repr == old(m.repr)
    ensures Doc(m) == Strip(old(Doc(m)))
  {
    hide Valid, Doc, Tidy, CoveredFields, FieldDocs, TidyFields, StripMetadata;
    OwnMap(m);
    DeleteKeys(m, {"status"});
    FieldKind(m, "metadata");
    if "metadata" !in m.fields || !m.fields["metadata"].MapValue? {
      return;
    }
    ghost var docs := Doc(m);
    Inner(m, "metadata");
    var metadata := m.fields["metadata"].m;
    ghost var others := m.repr - {m} - metadata.repr;
    RemoveMetadataNoise(metadata);
    Outer(m, "metadata", others, docs);
  }

  /** The documents that the shape hash is taken of. The caller's objects are not written to: only copies are stripped. */
  method CleanedCopies(objects: seq<MapObject>) returns (cleaned: seq<MapObject>)
    requires forall i :: 0 <= i < |objects| ==> Valid(objects[i])
    ensures |cleaned| == |objects|
    ensures forall i :: 0 <= i < |objects| ==> Valid(objects[i]) && Doc(objects[i]) == old(Doc(objects[i]))
    ensures forall i :: 0 <= i < |objects| ==> fresh(cleaned[i].repr) && Valid(cleaned[i]) && Doc(cleaned[i]) == Strip(old(Doc(objects[i])))
  {
    hide Valid, Doc, Tidy, Strip;
    cleaned := [];
    for n := 0 to |objects|
      invariant |cleaned| == n
      invariant forall i :: 0 <= i < |objects| ==> Valid(objects[i]) && Doc(objects[i]) == old(Doc(objects[i]))
      invariant forall i :: 0 <= i < n ==> fresh(cleaned[i].repr) && Valid(cleaned[i]) && Doc(cleaned[i]) == Strip(old(Doc(objects[i])))
    {
      var copied := DeepCopyMap(objects[n]);
      RemoveK8sNoiseFields(copied);
      cleaned := cleaned + [copied];
    }
  }
}
