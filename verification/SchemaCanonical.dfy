/** Normal forms of schemas: what validate_schema returns, and that returning it to validate_schema changes
    nothing, as when a lock file is read back. */
module SchemaCanonical {
  import opened Options
  import opened Permutations
  import opened Sorting
  import opened SchemaNames
  import opened Schema

  // Back to JSON

  function FieldJson(f: Field): Json {
    Obj(map["name" := Str(f.name), "type" := Str(f.kind), "optional" := Bool(f.optional),
            "description" := Str(f.description)])
  }

  function FieldsJson(fields: seq<Field>): Json { Arr(Map(fields, FieldJson)) }

  function MessageJson(m: Message): Json {
    Obj(map["name" := Str(m.name), "id" := Int(m.id), "description" := Str(m.description),
            "request" := FieldsJson(m.request), "response" := FieldsJson(m.response)])
  }

  function SchemaJson(s: Schema): Json {
    Obj(map["schema_version" := Int(1), "protocol_version" := Int(s.protocolVersion), "go_package" := Str(s.goPackage),
            "csharp_namespace" := Str(s.csharpNamespace), "encoding" := Str("json"),
            "messages" := Arr(Map(s.messages, MessageJson))])
  }

  // Normal forms

  predicate GoodField(f: Field) { IsFieldName(f.name) && IsType(f.kind) && IsDescription(f.description) }

  predicate GoNamesDiffer(f: Field, g: Field) { GoField(f.name) != GoField(g.name) }

  /** Sorted by name, with different Go names. */
  predicate GoodFields(fields: seq<Field>) {
    |fields| <= 128 && AscendingBy(fields, NameBefore) && (forall i :: 0 <= i < |fields| ==> GoodField(fields[i]))
    && Pairwise(fields, GoNamesDiffer)
  }

  predicate GoodMessage(m: Message) {
    && IsMessageName(m.name) && 0 <= m.id <= MAX_U32 && IsDescription(m.description)
    && GoodFields(m.request) && GoodFields(m.response) && Symbols(m.name) !! RESERVED
  }

  /** Sorted by id, with different names, ids and generated symbols. */
  predicate GoodSchema(s: Schema) {
    && 1 <= s.protocolVersion <= MAX_U32 && IsPackageName(s.goPackage) && IsNamespace(s.csharpNamespace)
    && 1 <= |s.messages| <= 4096 && AscendingBy(s.messages, IdBefore)
    && (forall i :: 0 <= i < |s.messages| ==> GoodMessage(s.messages[i])) && Pairwise(s.messages, Apart)
  }

  // Everything that is accepted comes out in normal form

  lemma FieldIsGood(j: Json)
    requires IsField(j)
    ensures GoodField(TheField(j))
  {
    hide IsFieldName, IsType;
    EmptyDescription();
  }

  lemma EmptyDescription()
    ensures IsDescription("")
  {
  }

  lemma FieldsAreGood(j: Json)
    requires FieldsOf(j).Some?
    ensures GoodFields(FieldsOf(j).value)
  {
    hide FieldOf, SortBy, GoodField, AscendingBy, NameBefore, Order;
    Orders();
    var fields, sorted := Map(j.items, TheField), FieldsOf(j).value;
    DistinctFields(j.items);
    SortByKeeps(fields, NameBefore);
    SameSize(sorted, fields);
    forall i | 0 <= i < |sorted| ensures GoodField(sorted[i]) {
      SameMember(sorted, fields, i);
      var k :| 0 <= k < |fields| && fields[k] == sorted[i];
      assert IsField(j.items[k]);
      FieldIsGood(j.items[k]);
    }
    forall i, k | 0 <= i < k < |fields| ensures GoNamesDiffer(fields[i], fields[k]) {
      assert FieldsApart(j.items[i], j.items[k]);
    }
    assert Between(GoNamesDiffer);
    PairwisePermuted(fields, sorted, GoNamesDiffer);
  }

  lemma MessageIsGood(j: Json)
    requires IsMessage(j)
    ensures GoodMessage(TheMessage(j))
  {
    hide FieldsOf, GoodFields, IsMessageName;
    EmptyDescription();
    FieldsAreGood(j.fields["request"]);
    FieldsAreGood(j.fields["response"]);
  }

  lemma ApartIsBetween()
    ensures Between(Apart)
  {
  }

  /** The result of validation is in normal form: in particular no two messages share a name, an id or a
      generated symbol, and no two fields of a message side share a Go name. */
  lemma ResultIsGood(v: Json)
    requires SchemaOf(v).Some?
    ensures GoodSchema(SchemaOf(v).value)
  {
    hide GoodMessage, TheMessage, IsPackageName, IsNamespace, SortBy, AscendingBy, DistinctBy, Apart, Order;
    Orders();
    var items := v.fields["messages"].items;
    var messages, sorted := Map(items, TheMessage), SchemaOf(v).value.messages;
    DistinctIds(items);
    SortByKeeps(messages, IdBefore);
    SameSize(sorted, messages);
    forall i | 0 <= i < |sorted| ensures GoodMessage(sorted[i]) {
      SameMember(sorted, messages, i);
      var k :| 0 <= k < |messages| && messages[k] == sorted[i];
      MessageIsGood(items[k]);
    }
    forall i, k | 0 <= i < k < |messages| ensures Apart(messages[i], messages[k]) {
      assert MessagesApart(items[i], items[k]);
    }
    ApartIsBetween();
    PairwisePermuted(messages, sorted, Apart);
  }

  /** Messages in normal form are listed by their ids, fields by their names, character by character. */
  lemma MessagesAreListed(s: Schema, i: nat, k: nat)
    requires GoodSchema(s) && i < k < |s.messages|
    ensures s.messages[i].id < s.messages[k].id
  {
    hide GoodMessage, Apart;
    assert IdBefore(s.messages[i], s.messages[k]);
  }

  lemma FieldsAreListed(fields: seq<Field>, i: nat, k: nat)
    requires GoodFields(fields) && i < k < |fields|
    ensures exists n :: SmallerAt(fields[i].name, fields[k].name, n)
  {
    hide GoodField, GoNamesDiffer;
    assert NameBefore(fields[i], fields[k]);
    BeforeIsSmaller(fields[i].name, fields[k].name);
  }

  // A normal form is its own result

  lemma FieldRoundTrip(f: Field)
    requires GoodField(f)
    ensures FieldOf(FieldJson(f)) == Some(f)
  {
    hide IsFieldName, IsType, IsDescription;
    Keys();
    assert FieldJson(f).fields.Keys == {"name", "type", "optional", "description"};
  }

  /** The keys of the JSON objects differ. */
  lemma Keys()
    ensures "name" != "type" && "name" != "optional" && "name" != "description" && "type" != "optional"
    ensures "type" != "description" && "optional" != "description"
    ensures "name" != "id" && "name" != "request" && "name" != "response" && "id" != "request" && "id" != "response"
    ensures "id" != "description" && "request" != "description" && "response" != "description"
    ensures "request" != "response"
  {
    assert |"name"| == 4 && |"type"| == 4 && |"optional"| == 8 && |"description"| == 11 && |"id"| == 2
           && |"request"| == 7 && |"response"| == 8;
    assert "name"[0] != "type"[0];
  }

  lemma FieldsRoundTrip(fields: seq<Field>)
    requires GoodFields(fields)
    ensures FieldsOf(FieldsJson(fields)) == Some(fields)
  {
    hide FieldOf, SortBy, GoodField, AscendingBy, NameBefore, Order, GoField, FieldJson;
    Orders();
    var items := Map(fields, FieldJson);
    forall i | 0 <= i < |fields| ensures TheField(items[i]) == fields[i] && IsField(items[i]) {
      FieldRoundTrip(fields[i]);
    }
    forall i, k | 0 <= i < k < |items| ensures FieldsApart(items[i], items[k]) {
      assert GoNamesDiffer(fields[i], fields[k]);
    }
    assert Map(items, TheField) == fields;
    SortedStays(fields, NameBefore);
  }

  lemma MessageRoundTrip(m: Message)
    requires GoodMessage(m)
    ensures MessageOf(MessageJson(m)) == Some(m)
  {
    hide IsMessageName, IsDescription, FieldsOf, GoodFields, FieldsJson, Symbols;
    Keys();
    FieldsRoundTrip(m.request);
    FieldsRoundTrip(m.response);
    assert MessageJson(m).fields.Keys == {"name", "id", "description", "request", "response"};
  }

  lemma SchemaKeys()
    ensures "schema_version" != "protocol_version" && "schema_version" != "go_package"
    ensures "schema_version" != "csharp_namespace"
    ensures "schema_version" != "encoding" && "schema_version" != "messages" && "protocol_version" != "go_package"
    ensures "protocol_version" != "csharp_namespace" && "protocol_version" != "encoding"
    ensures "protocol_version" != "messages"
    ensures "go_package" != "csharp_namespace" && "go_package" != "encoding" && "go_package" != "messages"
    ensures "csharp_namespace" != "encoding" && "csharp_namespace" != "messages" && "encoding" != "messages"
  {
    assert |"schema_version"| == 14 && |"protocol_version"| == 16 && |"go_package"| == 10 && |"csharp_namespace"| == 16
           && |"encoding"| == 8 && |"messages"| == 8;
    assert "protocol_version"[0] != "csharp_namespace"[0] && "encoding"[0] != "messages"[0];
  }

  lemma MessagesRoundTrip(messages: seq<Message>)
    requires AscendingBy(messages, IdBefore) && Pairwise(messages, Apart)
    requires forall i :: 0 <= i < |messages| ==> GoodMessage(messages[i])
    ensures MessagesAgree(Map(messages, MessageJson))
    ensures SortBy(Map(Map(messages, MessageJson), TheMessage), IdBefore) == messages
  {
    hide MessageOf, GoodFields, MessageJson, SortBy, Symbols, Order;
    Orders();
    var items := Map(messages, MessageJson);
    forall i | 0 <= i < |messages| ensures TheMessage(items[i]) == messages[i] && IsMessage(items[i]) {
      MessageRoundTrip(messages[i]);
    }
    forall i, k | 0 <= i < k < |items| ensures MessagesApart(items[i], items[k]) {
      assert Apart(messages[i], messages[k]);
    }
    assert Map(items, TheMessage) == messages;
    SortedStays(messages, IdBefore);
  }

  lemma GoodIsFixed(s: Schema)
    requires GoodSchema(s)
    ensures SchemaOf(SchemaJson(s)) == Some(s)
  {
    hide GoodMessage, IsPackageName, IsNamespace, SortBy, AscendingBy, Apart, MessagesAgree, TheMessage, MessageJson;
    SchemaKeys();
    MessagesRoundTrip(s.messages);
    assert SchemaJson(s).fields.Keys
        == {"schema_version", "protocol_version", "go_package", "csharp_namespace", "encoding", "messages"};
  }

  /** Validation is idempotent: its result, written out and validated again, is the same. */
  lemma ValidationIsIdempotent(v: Json)
    requires SchemaOf(v).Some?
    ensures SchemaOf(SchemaJson(SchemaOf(v).value)) == SchemaOf(v)
  {
    hide SchemaOf, SchemaJson, GoodSchema;
    ResultIsGood(v);
    GoodIsFixed(SchemaOf(v).value);
  }
}
