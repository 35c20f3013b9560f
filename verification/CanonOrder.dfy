/** Canonical actions do not depend on the order things are written in (internal/canon/k8s.go, internal/canon/docker.go). */
module CanonOrder {
  import opened Text
  import opened Sorting
  import CanonNoise

  datatype ResourceId = ResourceId(apiVersion: string, kind: string, namespace: string, name: string, tag: string)

  // Kubernetes documents

  predicate IdLess(a: ResourceId, b: ResourceId) {
    if a.apiVersion != b.apiVersion then Less(a.apiVersion, b.apiVersion)
    else if a.kind != b.kind then Less(a.kind, b.kind)
    else if a.namespace != b.namespace then Less(a.namespace, b.namespace)
    else Less(a.name, b.name)
  }

  type Lower = string -> string

  function FieldText(fields: map<string, CanonNoise.Json>, key: string, lower: Lower): string {
    if key in fields && fields[key].Scalar? && fields[key].isString then lower(Trim(fields[key].text)) else ""
  }

  function IdentityOf(doc: map<string, CanonNoise.Json>, lower: Lower): ResourceId {
    var metadata := if "metadata" in doc && doc["metadata"].Object? then doc["metadata"].fields else map[];
    ResourceId(FieldText(doc, "apiVersion", lower), FieldText(doc, "kind", lower),
               FieldText(metadata, "namespace", lower), FieldText(metadata, "name", lower), "")
  }

  /** The text under a key, trimmed and in lower case; none if there is no text there. */
  predicate TextAt(fields: map<string, CanonNoise.Json>, key: string, lower: Lower, value: string) {
    if key in fields && fields[key].Scalar? && fields[key].isString then value == lower(Trim(fields[key].text)) else value == ""
  }

  /** An identity is made of version and kind, and of namespace and name in the metadata. */
  lemma IdentityTold(doc: map<string, CanonNoise.Json>, lower: Lower)
    ensures var id := IdentityOf(doc, lower);
            && TextAt(doc, "apiVersion", lower, id.apiVersion) && TextAt(doc, "kind", lower, id.kind)
            && (if "metadata" in doc && doc["metadata"].Object?
                then TextAt(doc["metadata"].fields, "namespace", lower, id.namespace) && TextAt(doc["metadata"].fields, "name", lower, id.name)
                else id.namespace == "" && id.name == "")
            && id.tag == ""
  {
    hide Trim;
  }

  datatype Document = Document(identity: ResourceId, fields: map<string, CanonNoise.Json>)

  function Identified(docs: seq<map<string, CanonNoise.Json>>, lower: Lower): (r: seq<Document>)
    ensures |r| == |docs|
  {
    seq(|docs|, (i: nat) requires i < |docs| => Document(IdentityOf(docs[i], lower), docs[i]))
  }

  function ByIdentity(): (Document, Document) -> bool {
    (a: Document, b: Document) => IdLess(a.identity, b.identity)
  }

  function Identities(docs: seq<Document>): (r: seq<ResourceId>)
    ensures |r| == |docs|
  {
    seq(|docs|, (i: nat) requires i < |docs| => docs[i].identity)
  }

  /** What the shape hash is taken of. */
  function Shapes(docs: seq<Document>): (r: seq<map<string, CanonNoise.Json>>)
    ensures |r| == |docs|
  {
    seq(|docs|, (i: nat) requires i < |docs| => CanonNoise.Strip(docs[i].fields))
  }

  /** The sort is not stable: any arrangement without a descent may come out. */
  predicate Sorted(docs: seq<Document>, r: seq<Document>) {
    multiset(r) == multiset(docs) && WeaklyAscending(ByIdentity(), r)
  }

  lemma IdTrichotomy(a: ResourceId, b: ResourceId)
    ensures !IdLess(a, b) && !IdLess(b, a) && a.tag == b.tag ==> a == b
    ensures !(IdLess(a, b) && IdLess(b, a))
  {
    LessTrichotomy(a.apiVersion, b.apiVersion);
    LessTrichotomy(a.kind, b.kind);
    LessTrichotomy(a.namespace, b.namespace);
    LessTrichotomy(a.name, b.name);
  }

  lemma IdTransitive(a: ResourceId, b: ResourceId, c: ResourceId)
    ensures IdLess(a, b) && IdLess(b, c) ==> IdLess(a, c)
  {
    if IdLess(a, b) && IdLess(b, c) {
      LessTrichotomy(a.apiVersion, b.apiVersion);
      LessTrichotomy(a.kind, b.kind);
      LessTrichotomy(a.namespace, b.namespace);
      LessTrichotomy(b.apiVersion, c.apiVersion);
      LessTrichotomy(b.kind, c.kind);
      LessTrichotomy(b.namespace, c.namespace);
      if a.apiVersion != b.apiVersion && b.apiVersion != c.apiVersion {
        LessTransitive(a.apiVersion, b.apiVersion, c.apiVersion);
      } else if a.apiVersion == b.apiVersion == c.apiVersion {
        if a.kind != b.kind && b.kind != c.kind {
          LessTransitive(a.kind, b.kind, c.kind);
        } else if a.kind == b.kind == c.kind {
          if a.namespace != b.namespace && b.namespace != c.namespace {
            LessTransitive(a.namespace, b.namespace, c.namespace);
          } else if a.namespace == b.namespace == c.namespace {
            LessTransitive(a.name, b.name, c.name);
          }
        }
      }
    }
  }

  lemma OrderIsWeak()
    ensures WeakOrder(ByIdentity())
  {
    forall x: Document, y: Document, z: Document
      ensures ByIdentity()(x, y) ==> !ByIdentity()(y, x)
      ensures ByIdentity()(x, y) && ByIdentity()(y, z) ==> ByIdentity()(x, z)
      ensures !ByIdentity()(x, y) && !ByIdentity()(y, z) ==> !ByIdentity()(x, z)
    {
      IdsCompare(x.identity, y.identity, z.identity);
    }
  }

  /** Identities compare by a strict order in which only the tag does not count. */
  lemma IdsCompare(x: ResourceId, y: ResourceId, z: ResourceId)
    ensures IdLess(x, y) ==> !IdLess(y, x)
    ensures IdLess(x, y) && IdLess(y, z) ==> IdLess(x, z)
    ensures !IdLess(x, y) && !IdLess(y, z) ==> !IdLess(x, z)
  {
    hide IdLess;
    var untagged := y.(tag := x.tag);
    IdTrichotomy(x, y);
    IdTransitive(x, y, z);
    if !IdLess(x, y) && !IdLess(y, z) && IdLess(x, z) {
      TagDoesNotCount(x, y, untagged.tag);
      TagDoesNotCount(z, y, untagged.tag);
      IdTrichotomy(x, untagged);
      if IdLess(y, x) {
        IdTransitive(y, x, z);
      }
    }
  }

  lemma TagDoesNotCount(x: ResourceId, y: ResourceId, tag: string)
    ensures IdLess(x, y) == IdLess(x, y.(tag := tag))
    ensures IdLess(y, x) == IdLess(y.(tag := tag), x)
  {
  }

  // Order of documents

  predicate SameTags(docs: seq<Document>) {
    forall i, j :: 0 <= i < |docs| && 0 <= j < |docs| ==> docs[i].identity.tag == docs[j].identity.tag
  }

  /** Two sorted arrangements of the same documents list the same identities, also when documents share one. */
  lemma {:induction false} SameIdentities(r: seq<Document>, q: seq<Document>)
    requires multiset(r) == multiset(q) && WeaklyAscending(ByIdentity(), r) && WeaklyAscending(ByIdentity(), q)
    requires SameTags(r)
    ensures Identities(r) == Identities(q)
    decreases |r|
  {
    hide WeaklyAscending, IdLess, SameTags, Identities;
    assert |multiset(r)| == |r| && |multiset(q)| == |q|;
    if r == [] {
      assert q == [];
    } else {
      InMultiset(r, q, r[0]);
      var j :| 0 <= j < |q| && q[j] == r[0];
      var rest := q[..j] + q[j + 1..];
      OneRemoved(r, q, j);
      WithoutOne(r, 0);
      WithoutOne(q, j);
      assert r[..0] + r[1..] == r[1..];
      SameIdentities(r[1..], rest);
      forall i | 0 <= i <= j ensures q[i].identity == r[0].identity {
        TiedWithFirst(r, q, i, j);
      }
      TiedPrefix(q, j, r[0].identity);
      TiedPrefix(r, 0, r[0].identity);
    }
  }

  lemma OneRemoved(r: seq<Document>, q: seq<Document>, j: nat)
    requires multiset(r) == multiset(q) && r != [] && j < |q| && q[j] == r[0]
    ensures multiset(r[1..]) == multiset(q[..j] + q[j + 1..])
  {
    assert q == q[..j] + [q[j]] + q[j + 1..];
    assert r == [r[0]] + r[1..];
    assert multiset(r[1..]) == multiset(r) - multiset{r[0]};
    assert multiset(q[..j] + q[j + 1..]) == multiset(q) - multiset{q[j]};
  }

  /** Among entries with one identity it does not matter which is taken out. */
  lemma TiedPrefix(q: seq<Document>, j: nat, id: ResourceId)
    requires j < |q| && forall i :: 0 <= i <= j ==> q[i].identity == id
    ensures Identities(q) == [id] + Identities(q[..j] + q[j + 1..])
  {
    var rest := q[..j] + q[j + 1..];
    forall i | 0 < i < |q| ensures Identities(q)[i] == Identities(rest)[i - 1] {
      assert rest[i - 1] == q[if i > j then i else i - 1];
    }
  }

  lemma WithoutOne(q: seq<Document>, j: nat)
    requires j < |q|
    ensures WeaklyAscending(ByIdentity(), q) ==> WeaklyAscending(ByIdentity(), q[..j] + q[j + 1..])
    ensures SameTags(q) ==> SameTags(q[..j] + q[j + 1..])
  {
    hide IdLess;
    var rest := q[..j] + q[j + 1..];
    forall a | 0 <= a < |rest| ensures rest[a] == q[if a < j then a else a + 1] {
    }
  }

  lemma TiedWithFirst(r: seq<Document>, q: seq<Document>, i: nat, j: nat)
    requires multiset(r) == multiset(q) && WeaklyAscending(ByIdentity(), r) && WeaklyAscending(ByIdentity(), q)
    requires SameTags(r) && r != [] && i <= j < |q| && q[j] == r[0]
    ensures q[i].identity == r[0].identity
  {
    hide IdLess;
    InMultiset(r, q, q[i]);
    var k :| 0 <= k < |r| && r[k] == q[i];
    assert !ByIdentity()(r[k], r[0]) || k == 0;
    assert i < j ==> !ByIdentity()(q[j], q[i]);
    IdTrichotomy(q[i].identity, r[0].identity);
  }

  lemma NoTags(docs: seq<map<string, CanonNoise.Json>>, lower: Lower, r: seq<Document>)
    requires multiset(r) == multiset(Identified(docs, lower))
    ensures SameTags(r)
  {
    forall i | 0 <= i < |r| ensures r[i].identity.tag == "" {
      InMultiset(r, Identified(docs, lower), r[i]);
    }
  }

  function Labelled(fields: map<string, CanonNoise.Json>, lower: Lower): Document {
    Document(IdentityOf(fields, lower), fields)
  }

  lemma {:induction false} IdentifiedCounts(docs: seq<map<string, CanonNoise.Json>>, lower: Lower, d: Document)
    ensures multiset(Identified(docs, lower))[d]
         == if d == Labelled(d.fields, lower) then multiset(docs)[d.fields] else 0
  {
    hide IdentityOf;
    if docs != [] {
      var front, last := docs[..|docs| - 1], docs[|docs| - 1];
      IdentifiedCounts(front, lower, d);
      assert docs == front + [last];
      assert Identified(docs, lower) == Identified(front, lower) + [Labelled(last, lower)];
    }
  }

  lemma IdentifiedPermutes(docs: seq<map<string, CanonNoise.Json>>, other: seq<map<string, CanonNoise.Json>>, lower: Lower)
    requires multiset(docs) == multiset(other)
    ensures multiset(Identified(docs, lower)) == multiset(Identified(other, lower))
  {
    hide Identified;
    forall d: Document ensures multiset(Identified(docs, lower))[d] == multiset(Identified(other, lower))[d] {
      IdentifiedCounts(docs, lower, d);
      IdentifiedCounts(other, lower, d);
    }
  }

  /** Permuting the documents of an artifact leaves its identities as they are, and with them the intent digest. */
  lemma IdentitiesAreOrderFree(docs: seq<map<string, CanonNoise.Json>>, other: seq<map<string, CanonNoise.Json>>, lower: Lower,
                               r: seq<Document>, q: seq<Document>)
    requires multiset(docs) == multiset(other)
    requires Sorted(Identified(docs, lower), r) && Sorted(Identified(other, lower), q)
    ensures Identities(r) == Identities(q)
  {
    hide Identified, Identities, WeaklyAscending;
    IdentifiedPermutes(docs, other, lower);
    NoTags(docs, lower, r);
    SameIdentities(r, q);
  }

  // Shapes of documents

  /** However the documents are permuted and whatever the sort makes of ties, one list of shapes is hashed. */
  ghost predicate ShapesAreFixed(docs: seq<map<string, CanonNoise.Json>>, lower: Lower) {
    forall other: seq<map<string, CanonNoise.Json>>, r: seq<Document>, q: seq<Document> ::
      multiset(docs) == multiset(other) && Sorted(Identified(docs, lower), r) && Sorted(Identified(other, lower), q)
      ==> Shapes(r) == Shapes(q)
  }

  /** Documents that share an identity differ in noise only. */
  predicate IdentityFixesShape(docs: seq<map<string, CanonNoise.Json>>, lower: Lower) {
    forall x, y | x in docs && y in docs && IdentityOf(x, lower) == IdentityOf(y, lower) ::
      CanonNoise.Strip(x) == CanonNoise.Strip(y)
  }

  lemma ComesFrom(docs: seq<map<string, CanonNoise.Json>>, lower: Lower, r: seq<Document>, x: Document)
    requires multiset(r) == multiset(Identified(docs, lower)) && x in r
    ensures x.fields in docs && x.identity == IdentityOf(x.fields, lower)
  {
    hide IdentityOf;
    InMultiset(r, Identified(docs, lower), x);
  }

  lemma OneListOfShapes(docs: seq<map<string, CanonNoise.Json>>, other: seq<map<string, CanonNoise.Json>>, lower: Lower,
                        r: seq<Document>, q: seq<Document>)
    requires multiset(docs) == multiset(other)
    requires Sorted(Identified(docs, lower), r) && Sorted(Identified(other, lower), q)
    requires IdentityFixesShape(docs, lower)
    ensures Shapes(r) == Shapes(q)
  {
    hide Identified, IdentityOf, CanonNoise.Strip, WeaklyAscending;
    IdentitiesAreOrderFree(docs, other, lower, r, q);
    IdentifiedPermutes(docs, other, lower);
    assert |r| == |Identities(r)| == |q|;
    forall i | 0 <= i < |r| ensures Shapes(r)[i] == Shapes(q)[i] {
      ComesFrom(docs, lower, r, r[i]);
      ComesFrom(docs, lower, q, q[i]);
      assert Identities(r)[i] == Identities(q)[i];
    }
  }

  lemma ArrangementExists(docs: seq<Document>) returns (r: seq<Document>)
    ensures Sorted(docs, r)
  {
    OrderIsWeak();
    r := Sort(ByIdentity(), docs);
    SortWeaklyAscending(ByIdentity(), docs);
  }

  lemma TiesExchange(docs: seq<Document>, r: seq<Document>, i: nat, j: nat)
    requires Sorted(docs, r) && i < |r| && j < |r| && r[i].identity == r[j].identity
    ensures Sorted(docs, r[i := r[j]][j := r[i]])
  {
    hide IdLess;
    var q := r[i := r[j]][j := r[i]];
    assert Identities(q) == Identities(r);
    forall a, b | 0 <= a < b < |q| ensures !ByIdentity()(q[b], q[a]) {
      assert Identities(q)[a] == Identities(r)[a] && Identities(q)[b] == Identities(r)[b];
      assert !ByIdentity()(r[b], r[a]);
    }
  }

  lemma TwoListsOfShapes(docs: seq<map<string, CanonNoise.Json>>, lower: Lower, i: nat, j: nat)
    requires i < |docs| && j < |docs| && IdentityOf(docs[i], lower) == IdentityOf(docs[j], lower)
    requires CanonNoise.Strip(docs[i]) != CanonNoise.Strip(docs[j])
    ensures !ShapesAreFixed(docs, lower)
  {
    hide IdentityOf, CanonNoise.Strip, WeaklyAscending;
    var all := Identified(docs, lower);
    var r := ArrangementExists(all);
    InMultiset(r, all, all[i]);
    InMultiset(r, all, all[j]);
    var a :| 0 <= a < |r| && r[a] == all[i];
    var b :| 0 <= b < |r| && r[b] == all[j];
    TiesExchange(all, r, a, b);
    assert Shapes(r)[a] != Shapes(r[a := r[b]][b := r[a]])[a];
  }

  /** The shape hash does not depend on the order of the documents if and only if those sharing an identity differ in noise
      only. */
  lemma ShapesAreOrderFreeExactly(docs: seq<map<string, CanonNoise.Json>>, lower: Lower)
    ensures ShapesAreFixed(docs, lower) <==> IdentityFixesShape(docs, lower)
  {
    hide Identified, IdentityOf, CanonNoise.Strip, Sorted;
    if IdentityFixesShape(docs, lower) {
      forall other: seq<map<string, CanonNoise.Json>>, r: seq<Document>, q: seq<Document>
        | multiset(docs) == multiset(other) && Sorted(Identified(docs, lower), r) && Sorted(Identified(other, lower), q)
        ensures Shapes(r) == Shapes(q)
      {
        OneListOfShapes(docs, other, lower, r, q);
      }
    } else {
      var x, y :| x in docs && y in docs && IdentityOf(x, lower) == IdentityOf(y, lower)
                  && CanonNoise.Strip(x) != CanonNoise.Strip(y);
      var i :| 0 <= i < |docs| && docs[i] == x;
      var j :| 0 <= j < |docs| && docs[j] == y;
      TwoListsOfShapes(docs, lower, i, j);
    }
  }
}
