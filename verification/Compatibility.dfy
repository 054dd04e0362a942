/** check_compatibility of tools/protocolgen/generate.py, and what it means along a chain of releases. */
module Compatibility {
  import opened Options
  import opened Permutations
  import opened Sorting
  import opened Schema
  import opened SchemaCanonical

  datatype FieldShape = FieldShape(name: string, kind: string, optional: bool)

  function ShapeOf(f: Field): FieldShape { FieldShape(f.name, f.kind, f.optional) }

  datatype WireShape = WireShape(request: seq<FieldShape>, response: seq<FieldShape>)

  /** wire_shape: everything about the fields but their descriptions. */
  function WireShapeOf(m: Message): WireShape { WireShape(Map(m.request, ShapeOf), Map(m.response, ShapeOf)) }

  /** Field by field the same names, types and optionality. */
  predicate SameFields(a: seq<Field>, b: seq<Field>) {
    |a| == |b| && forall i :: 0 <= i < |a| ==>
                    a[i].name == b[i].name && a[i].kind == b[i].kind && a[i].optional == b[i].optional
  }

  predicate SameOnTheWire(a: Message, b: Message) {
    a.name == b.name && a.id == b.id && SameFields(a.request, b.request) && SameFields(a.response, b.response)
  }

  /** Equal wire shapes mean the same fields. */
  lemma ShapesMean(a: Message, b: Message)
    ensures WireShapeOf(a) == WireShapeOf(b)
            <==> SameFields(a.request, b.request) && SameFields(a.response, b.response)
  {
    ShapeMeans(a.request, b.request);
    ShapeMeans(a.response, b.response);
  }

  lemma ShapeMeans(a: seq<Field>, b: seq<Field>)
    ensures Map(a, ShapeOf) == Map(b, ShapeOf) <==> SameFields(a, b)
  {
    if Map(a, ShapeOf) == Map(b, ShapeOf) {
      assert |Map(a, ShapeOf)| == |a| && |Map(b, ShapeOf)| == |b|;
      forall i | 0 <= i < |a|
        ensures a[i].name == b[i].name && a[i].kind == b[i].kind && a[i].optional == b[i].optional
      {
        assert Map(a, ShapeOf)[i] == ShapeOf(a[i]) && Map(b, ShapeOf)[i] == ShapeOf(b[i]);
      }
    }
  }

  /** Every old message is still there as it was; new messages need a higher version. */
  predicate Compatible(current: Schema, baseline: Schema) {
    && current.protocolVersion >= baseline.protocolVersion
    && current.goPackage == baseline.goPackage && current.csharpNamespace == baseline.csharpNamespace
    && (forall i :: 0 <= i < |baseline.messages| ==> Keeps(current, baseline.messages[i]))
    && (|current.messages| > |baseline.messages| ==> current.protocolVersion > baseline.protocolVersion)
  }

  predicate Keeps(s: Schema, old_: Message) {
    exists k :: 0 <= k < |s.messages| && SameOnTheWire(s.messages[k], old_)
  }

  predicate NamesDiffer(messages: seq<Message>) {
    forall i, k :: 0 <= i < k < |messages| ==> messages[i].name != messages[k].name
  }

  lemma GoodNamesDiffer(s: Schema)
    requires GoodSchema(s)
    ensures NamesDiffer(s.messages)
  {
    hide GoodMessage, AscendingBy;
    forall i, k | 0 <= i < k < |s.messages| ensures s.messages[i].name != s.messages[k].name {
      assert Apart(s.messages[i], s.messages[k]);
    }
  }

  /** The table of messages by name. */
  method TableByName(messages: seq<Message>) returns (byName: map<string, Message>)
    requires NamesDiffer(messages)
    ensures forall k :: 0 <= k < |messages| ==> messages[k].name in byName && byName[messages[k].name] == messages[k]
    ensures forall n :: n in byName ==> byName[n] in messages && byName[n].name == n
  {
    byName := map[];
    for i := 0 to |messages|
      invariant forall k :: 0 <= k < i ==> messages[k].name in byName && byName[messages[k].name] == messages[k]
      invariant forall n :: n in byName ==> byName[n] in messages && byName[n].name == n
    {
      byName := byName[messages[i].name := messages[i]];
    }
  }

  /** check_compatibility. */
  method CheckCompatibility(current: Schema, baseline: Schema) returns (ok: bool)
    requires GoodSchema(current) && GoodSchema(baseline)
    ensures ok == Compatible(current, baseline)
  {
    hide GoodSchema, WireShapeOf, SameFields;
    if current.protocolVersion < baseline.protocolVersion {
      return false;
    }
    if current.goPackage != baseline.goPackage || current.csharpNamespace != baseline.csharpNamespace {
      return false;
    }
    GoodNamesDiffer(current);
    hide NamesDiffer;
    var byName := TableByName(current.messages);
    for i := 0 to |baseline.messages|
      invariant forall k :: 0 <= k < i ==> Keeps(current, baseline.messages[k])
    {
      var before := baseline.messages[i];
      if before.name !in byName {
        assert !Keeps(current, before);
        return false;
      }
      var now := byName[before.name];
      ShapesMean(now, before);
      if now.id != before.id || WireShapeOf(now) != WireShapeOf(before) {
        assert !Keeps(current, before);
        return false;
      }
      assert SameOnTheWire(now, before);
    }
    if |current.messages| > |baseline.messages| && current.protocolVersion <= baseline.protocolVersion {
      return false;
    }
    ok := true;
  }

  lemma CompatibleReflexive(s: Schema)
    ensures Compatible(s, s)
  {
    forall i | 0 <= i < |s.messages| ensures Keeps(s, s.messages[i]) {
      assert SameOnTheWire(s.messages[i], s.messages[i]);
    }
  }

  lemma KeepsTransitive(a: Schema, b: Schema, m: Message)
    requires Keeps(b, m) && Compatible(a, b)
    ensures Keeps(a, m)
  {
    var k :| 0 <= k < |b.messages| && SameOnTheWire(b.messages[k], m);
    assert Keeps(a, b.messages[k]);
    var j :| 0 <= j < |a.messages| && SameOnTheWire(a.messages[j], b.messages[k]);
    assert SameOnTheWire(a.messages[j], m);
  }

  lemma CompatibleTransitive(a: Schema, b: Schema, c: Schema)
    requires Compatible(a, b) && Compatible(b, c)
    ensures Compatible(a, c)
  {
    forall i | 0 <= i < |c.messages| ensures Keeps(a, c.messages[i]) {
      KeepsTransitive(a, b, c.messages[i]);
    }
  }

  /** Releases, oldest first, each compatible with the one before. */
  predicate Chain(releases: seq<Schema>) {
    && (forall i :: 0 <= i < |releases| ==> GoodSchema(releases[i]))
    && (forall i :: 0 <= i < |releases| - 1 ==> Compatible(releases[i + 1], releases[i]))
  }

  lemma {:induction false} ChainCompatible(releases: seq<Schema>, i: nat, j: nat)
    requires Chain(releases) && i <= j < |releases|
    ensures Compatible(releases[j], releases[i])
    decreases j
  {
    hide Compatible, GoodSchema;
    if i == j {
      CompatibleReflexive(releases[i]);
    } else {
      ChainCompatible(releases, i, j - 1);
      assert Compatible(releases[j - 1 + 1], releases[j - 1]);
      CompatibleTransitive(releases[j], releases[j - 1], releases[i]);
    }
  }

  /** Along any chain of releases the version never goes back, and package and namespace stay. */
  lemma HeaderIsForever(releases: seq<Schema>, i: nat, j: nat)
    requires Chain(releases) && i <= j < |releases|
    ensures releases[i].protocolVersion <= releases[j].protocolVersion
    ensures releases[i].goPackage == releases[j].goPackage
    ensures releases[i].csharpNamespace == releases[j].csharpNamespace
  {
    hide GoodSchema, Keeps;
    ChainCompatible(releases, i, j);
  }

  lemma SameIdOrName(s: Schema, a: Message, b: Message)
    requires GoodSchema(s) && a in s.messages && b in s.messages && (a.id == b.id || a.name == b.name)
    ensures a == b
  {
    var i :| 0 <= i < |s.messages| && s.messages[i] == a;
    var j :| 0 <= j < |s.messages| && s.messages[j] == b;
    assert forall x, y :: 0 <= x < y < |s.messages| ==> Apart(s.messages[x], s.messages[y]);
  }

  /** Along any chain of releases an id never comes to mean another message, and a message never gets
      another id or other fields. */
  lemma IdsAreForever(releases: seq<Schema>, i: nat, j: nat, a: Message, b: Message)
    requires Chain(releases) && i < |releases| && j < |releases|
    requires a in releases[i].messages && b in releases[j].messages
    ensures a.id == b.id <==> a.name == b.name
    ensures a.id == b.id ==> SameFields(a.request, b.request) && SameFields(a.response, b.response)
  {
    hide GoodSchema;
    if i <= j {
      ChainCompatible(releases, i, j);
      Persists(releases[j], releases[i], a, b);
    } else {
      ChainCompatible(releases, j, i);
      Persists(releases[i], releases[j], b, a);
    }
  }

  lemma Persists(later: Schema, earlier: Schema, a: Message, b: Message)
    requires GoodSchema(later) && Compatible(later, earlier) && a in earlier.messages && b in later.messages
    ensures a.id == b.id <==> a.name == b.name
    ensures a.id == b.id ==> SameFields(a.request, b.request) && SameFields(a.response, b.response)
  {
    hide GoodSchema;
    assert Keeps(later, a);
    var k :| 0 <= k < |later.messages| && SameOnTheWire(later.messages[k], a);
    var a' := later.messages[k];
    assert a' in later.messages;
    if a'.id == b.id || a'.name == b.name {
      SameIdOrName(later, a', b);
    }
  }

  // Nothing new without a new version

  function Names(messages: seq<Message>): set<string> { set m | m in messages :: m.name }

  lemma {:induction false} NamesCount(messages: seq<Message>)
    requires Pairwise(messages, Apart)
    ensures |Names(messages)| == |messages|
  {
    if messages != [] {
      var rest := messages[1..];
      NamesCount(rest);
      assert messages == [messages[0]] + rest;
      forall m | m in rest ensures m.name != messages[0].name {
        var i :| 0 <= i < |rest| && rest[i] == m;
        assert Apart(messages[0], messages[i + 1]);
      }
      assert Names(messages) == Names(rest) + {messages[0].name};
      assert messages[0].name !in Names(rest);
    }
  }

  lemma SameSizeSubset(a: set<string>, b: set<string>)
    requires a <= b && |b| <= |a|
    ensures a == b
  {
    assert b == a + (b - a);
    assert |b| == |a| + |b - a|;
  }

  /** Two compatible releases with the same protocol version have the same messages on the wire. */
  lemma SameVersionSameWire(current: Schema, baseline: Schema)
    requires GoodSchema(current) && GoodSchema(baseline) && Compatible(current, baseline)
    requires current.protocolVersion == baseline.protocolVersion
    ensures Compatible(baseline, current)
  {
    hide GoodMessage, SameFields;
    NamesCount(current.messages);
    NamesCount(baseline.messages);
    forall n | n in Names(baseline.messages) ensures n in Names(current.messages) {
      var m :| m in baseline.messages && m.name == n;
      assert Keeps(current, m);
    }
    SameSizeSubset(Names(baseline.messages), Names(current.messages));
    forall i | 0 <= i < |current.messages| ensures Keeps(baseline, current.messages[i]) {
      var m := current.messages[i];
      assert m.name in Names(current.messages);
      var before :| before in baseline.messages && before.name == m.name;
      Persists(current, baseline, before, m);
      var k :| 0 <= k < |baseline.messages| && baseline.messages[k] == before;
      assert SameOnTheWire(baseline.messages[k], m);
    }
  }

  // What a release may change

  /** The same schema with other descriptions. */
  predicate Redescribed(a: Schema, b: Schema) {
    && a.protocolVersion == b.protocolVersion && a.goPackage == b.goPackage && a.csharpNamespace == b.csharpNamespace
    && |a.messages| == |b.messages|
    && forall i :: 0 <= i < |a.messages| ==>
         a.messages[i].name == b.messages[i].name && a.messages[i].id == b.messages[i].id
         && SameFields(a.messages[i].request, b.messages[i].request)
         && SameFields(a.messages[i].response, b.messages[i].response)
  }

  lemma DescriptionsAreFree(a: Schema, b: Schema)
    requires Redescribed(a, b)
    ensures Compatible(a, b)
  {
    forall i | 0 <= i < |b.messages| ensures Keeps(a, b.messages[i]) {
      assert SameOnTheWire(a.messages[i], b.messages[i]);
    }
  }

  /** A new message is compatible exactly with a higher protocol version. */
  lemma AddingNeedsVersion(s: Schema, m: Message, i: nat, version: int)
    requires i <= |s.messages|
    ensures var messages := s.messages[..i] + [m] + s.messages[i..];
            Compatible(s.(messages := messages, protocolVersion := version), s) <==> version > s.protocolVersion
  {
    var messages := s.messages[..i] + [m] + s.messages[i..];
    var more := s.(messages := messages, protocolVersion := version);
    forall k | 0 <= k < |s.messages| ensures Keeps(more, s.messages[k]) {
      assert messages[if k < i then k else k + 1] == s.messages[k];
      assert SameOnTheWire(s.messages[k], s.messages[k]);
    }
  }

  /** A message is never dropped. */
  lemma DroppingIsIncompatible(s: Schema, i: nat, version: int)
    requires GoodSchema(s) && i < |s.messages|
    ensures !Compatible(s.(messages := s.messages[..i] + s.messages[i + 1..], protocolVersion := version), s)
  {
    hide GoodSchema, SameFields;
    GoodNamesDiffer(s);
    var messages := s.messages[..i] + s.messages[i + 1..];
    forall k | 0 <= k < |messages| ensures !SameOnTheWire(messages[k], s.messages[i]) {
      assert messages[k] == s.messages[if k < i then k else k + 1];
    }
    assert !Keeps(s.(messages := messages, protocolVersion := version), s.messages[i]);
  }
}
