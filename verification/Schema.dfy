/** validate_fields, validate_schema and check_compatibility of tools/protocolgen/generate.py. A schema is
    accepted or rejected by what it contains, in whatever order; None stands for SchemaError. */
module Schema {
  import opened Options
  import opened Permutations
  import opened Sorting
  import opened SchemaNames

  /** A loaded JSON value; loading rejects repeated keys. */
  datatype Json =
    | Null
    | Bool(b: bool)
    | Int(n: int)
    | Float
    | Str(s: string)
    | Arr(items: seq<Json>)
    | Obj(fields: map<string, Json>)

  datatype Field = Field(name: string, kind: string, optional: bool, description: string)

  datatype Message = Message(name: string, id: int, description: string, request: seq<Field>, response: seq<Field>)

  datatype Schema = Schema(protocolVersion: int, goPackage: string, csharpNamespace: string, messages: seq<Message>)

  const MAX_U32 := 0xFFFF_FFFF

  // One field

  predicate ObjectKeys(j: Json, required: set<string>, optional: set<string>) {
    j.Obj? && required <= j.fields.Keys && j.fields.Keys <= required + optional
  }

  function DescriptionOf(fields: map<string, Json>): Option<string> {
    if "description" !in fields then Some("")
    else if fields["description"].Str? && IsDescription(fields["description"].s) then Some(fields["description"].s)
    else None
  }

  function FieldOf(j: Json): Option<Field> {
    if !ObjectKeys(j, {"name", "type"}, {"optional", "description"}) then None
    else if !(j.fields["name"].Str? && IsFieldName(j.fields["name"].s)) then None
    else if !(j.fields["type"].Str? && IsType(j.fields["type"].s)) then None
    else if "optional" in j.fields && !j.fields["optional"].Bool? then None
    else if DescriptionOf(j.fields).None? then None
    else Some(Field(j.fields["name"].s, j.fields["type"].s,
                    "optional" in j.fields && j.fields["optional"].b, DescriptionOf(j.fields).value))
  }

  // A list of fields

  function TheField(j: Json): Field {
    if FieldOf(j).Some? then FieldOf(j).value else Field("", "", false, "")
  }

  predicate IsField(j: Json) { FieldOf(j).Some? }

  /** Two fields of one list must differ in their Go names. */
  predicate FieldsApart(a: Json, b: Json) { GoField(TheField(a).name) != GoField(TheField(b).name) }

  predicate FieldsAgree(items: seq<Json>) {
    (forall i :: 0 <= i < |items| ==> IsField(items[i])) && Pairwise(items, FieldsApart)
  }

  function FieldsOf(j: Json): Option<seq<Field>> {
    if j.Arr? && |j.items| <= 128 && FieldsAgree(j.items) then Some(SortBy(Map(j.items, TheField), NameBefore))
    else None
  }

  // Fields are listed by name, messages by id

  predicate NameBefore(f: Field, g: Field) { Before(f.name, g.name) }

  predicate IdBefore(m: Message, n: Message) { m.id < n.id }

  lemma Orders()
    ensures Order(NameBefore) && Order(IdBefore)
  {
    hide Before;
    forall f, g | NameBefore(f, g) ensures !NameBefore(g, f) {
      BeforeTotal(f.name, g.name);
    }
    forall f, g, h | NameBefore(f, g) && NameBefore(g, h) ensures NameBefore(f, h) {
      BeforeTransitive(f.name, g.name, h.name);
    }
  }

  // A list of fields in any order

  lemma DistinctFields(items: seq<Json>)
    requires FieldsAgree(items)
    ensures DistinctBy(Map(items, TheField), NameBefore)
  {
    hide Before, GoField, FieldOf;
    forall i, j | 0 <= i < j < |items| ensures Differ(TheField(items[i]), TheField(items[j]), NameBefore) {
      assert FieldsApart(items[i], items[j]);
      BeforeTotal(TheField(items[i]).name, TheField(items[j]).name);
    }
  }

  lemma ApartBetween()
    ensures Between(FieldsApart)
  {
  }

  lemma AgreePermuted(a: seq<Json>, b: seq<Json>)
    requires multiset(a) == multiset(b) && FieldsAgree(a)
    ensures FieldsAgree(b)
  {
    ApartBetween();
    PairwisePermuted(a, b, FieldsApart);
    forall i | 0 <= i < |b| ensures IsField(b[i]) {
      SameMember(b, a, i);
    }
  }

  /** The order in which fields are listed does not matter, neither for acceptance nor for the result. */
  lemma FieldsInAnyOrder(a: seq<Json>, b: seq<Json>)
    requires multiset(a) == multiset(b)
    ensures FieldsOf(Arr(a)) == FieldsOf(Arr(b))
  {
    hide FieldOf, SortBy, NameBefore, Order, AscendingBy;
    Orders();
    SameSize(a, b);
    if FieldsAgree(a) {
      AgreePermuted(a, b);
      DistinctFields(a);
      DistinctFields(b);
      MapPermuted(a, b, TheField);
      SortByKeeps(Map(a, TheField), NameBefore);
      SortByKeeps(Map(b, TheField), NameBefore);
      AscendingByUnique(SortBy(Map(a, TheField), NameBefore), SortBy(Map(b, TheField), NameBefore), NameBefore);
    } else if FieldsAgree(b) {
      AgreePermuted(b, a);
    }
  }

  /** validate_fields: the loop with its sets of names and symbols. */
  method ValidateFields(value: Json) returns (r: Option<seq<Field>>)
    ensures r == FieldsOf(value)
  {
    hide FieldOf, SortBy, GoField;
    if !value.Arr? || |value.items| > 128 {
      return None;
    }
    var items := value.items;
    var result: seq<Field> := [];
    var names: set<string>, symbols: set<string> := {}, {};
    for i := 0 to |items|
      invariant FieldsAgree(items[..i]) && result == Map(items[..i], TheField)
      invariant forall n :: n in names <==> exists j :: 0 <= j < i && TheField(items[j]).name == n
      invariant forall s :: s in symbols <==> exists j :: 0 <= j < i && GoField(TheField(items[j]).name) == s
    {
      assert items[..i + 1] == items[..i] + [items[i]];
      var field := FieldOf(items[i]);
      if field.None? {
        assert !IsField(items[i]);
        return None;
      }
      assert field.value == TheField(items[i]);
      var symbol := GoField(field.value.name);
      if field.value.name in names || symbol in symbols {
        var j :| 0 <= j < i && GoField(TheField(items[j]).name) == symbol;
        assert !FieldsApart(items[j], items[i]);
        return None;
      }
      forall j | 0 <= j < i ensures FieldsApart(items[j], items[i]) {
        assert GoField(TheField(items[j]).name) in symbols;
      }
      names := names + {field.value.name};
      symbols := symbols + {symbol};
      result := result + [field.value];
    }
    assert items[..|items|] == items;
    r := Some(SortBy(result, NameBefore));
  }

  // One message

  function TheFields(j: Json): seq<Field> { if FieldsOf(j).Some? then FieldsOf(j).value else [] }

  function MessageOf(j: Json): Option<Message> {
    if !ObjectKeys(j, {"name", "id", "request", "response"}, {"description"}) then None
    else if !(j.fields["name"].Str? && IsMessageName(j.fields["name"].s)) then None
    else if !(j.fields["id"].Int? && 0 <= j.fields["id"].n <= MAX_U32) then None
    else if DescriptionOf(j.fields).None? then None
    else if FieldsOf(j.fields["request"]).None? || FieldsOf(j.fields["response"]).None? then None
    else Some(Message(j.fields["name"].s, j.fields["id"].n, DescriptionOf(j.fields).value,
                      TheFields(j.fields["request"]), TheFields(j.fields["response"])))
  }

  function TheMessage(j: Json): Message {
    if MessageOf(j).Some? then MessageOf(j).value else Message("", 0, "", [], [])
  }

  /** The Go symbols generated for a message. */
  function Symbols(name: string): set<string> { {"Msg" + name, name + "Request", name + "Response"} }

  const RESERVED: set<string> := {"SchemaVersion", "ProtocolVersion"}

  predicate IsMessage(j: Json) { MessageOf(j).Some? && Symbols(TheMessage(j).name) !! RESERVED }

  /** Two messages must differ in name, in id, and in all generated symbols. */
  predicate Apart(a: Message, b: Message) {
    a.name != b.name && a.id != b.id && Symbols(a.name) !! Symbols(b.name)
  }

  predicate MessagesApart(a: Json, b: Json) { Apart(TheMessage(a), TheMessage(b)) }

  predicate MessagesAgree(items: seq<Json>) {
    (forall i :: 0 <= i < |items| ==> IsMessage(items[i])) && Pairwise(items, MessagesApart)
  }

  // The schema

  const SCHEMA_KEYS: set<string> :=
    {"schema_version", "protocol_version", "go_package", "csharp_namespace", "encoding", "messages"}

  function SchemaOf(v: Json): Option<Schema> {
    if !ObjectKeys(v, SCHEMA_KEYS, {}) then None
    else if v.fields["schema_version"] != Int(1) then None
    else if !(v.fields["protocol_version"].Int? && 1 <= v.fields["protocol_version"].n <= MAX_U32) then None
    else if !(v.fields["go_package"].Str? && IsPackageName(v.fields["go_package"].s)) then None
    else if !(v.fields["csharp_namespace"].Str? && IsNamespace(v.fields["csharp_namespace"].s)) then None
    else if v.fields["encoding"] != Str("json") then None
    else if !(v.fields["messages"].Arr? && 1 <= |v.fields["messages"].items| <= 4096
              && MessagesAgree(v.fields["messages"].items)) then None
    else Some(Schema(v.fields["protocol_version"].n, v.fields["go_package"].s, v.fields["csharp_namespace"].s,
                     SortBy(Map(v.fields["messages"].items, TheMessage), IdBefore)))
  }

  lemma MessagesBetween()
    ensures Between(MessagesApart)
  {
    hide TheMessage;
    forall a, b | MessagesApart(a, b) ensures MessagesApart(b, a) {
    }
    forall a ensures !MessagesApart(a, a) {
    }
  }

  lemma MessagesPermuted(a: seq<Json>, b: seq<Json>)
    requires multiset(a) == multiset(b) && MessagesAgree(a)
    ensures MessagesAgree(b)
  {
    hide MessagesApart, IsMessage;
    MessagesBetween();
    PairwisePermuted(a, b, MessagesApart);
    forall i | 0 <= i < |b| ensures IsMessage(b[i]) {
      SameMember(b, a, i);
    }
  }

  lemma DistinctIds(items: seq<Json>)
    requires MessagesAgree(items)
    ensures DistinctBy(Map(items, TheMessage), IdBefore)
  {
    hide TheMessage;
    forall i, j | 0 <= i < j < |items| ensures Differ(TheMessage(items[i]), TheMessage(items[j]), IdBefore) {
      assert MessagesApart(items[i], items[j]);
    }
  }

  lemma MessagesSorted(a: seq<Json>, b: seq<Json>)
    requires multiset(a) == multiset(b) && MessagesAgree(a)
    ensures MessagesAgree(b) && SortBy(Map(a, TheMessage), IdBefore) == SortBy(Map(b, TheMessage), IdBefore)
  {
    hide TheMessage, MessagesAgree, IdBefore, Order, AscendingBy;
    Orders();
    MessagesPermuted(a, b);
    DistinctIds(a);
    DistinctIds(b);
    MapPermuted(a, b, TheMessage);
    SortByKeeps(Map(a, TheMessage), IdBefore);
    SortByKeeps(Map(b, TheMessage), IdBefore);
    AscendingByUnique(SortBy(Map(a, TheMessage), IdBefore), SortBy(Map(b, TheMessage), IdBefore), IdBefore);
  }

  /** The order in which messages are listed does not matter, neither for acceptance nor for the result. */
  lemma MessagesInAnyOrder(v: Json, w: Json)
    requires v.Obj? && w.Obj? && "messages" in v.fields && "messages" in w.fields
    requires v.fields - {"messages"} == w.fields - {"messages"}
    requires v.fields["messages"].Arr? && w.fields["messages"].Arr?
    requires multiset(v.fields["messages"].items) == multiset(w.fields["messages"].items)
    ensures SchemaOf(v) == SchemaOf(w)
  {
    hide IsPackageName, IsNamespace, MessagesAgree, TheMessage, SortBy;
    var a, b := v.fields["messages"].items, w.fields["messages"].items;
    SameSize(a, b);
    if MessagesAgree(a) {
      MessagesSorted(a, b);
    } else if MessagesAgree(b) {
      MessagesSorted(b, a);
    }
    forall k ensures k in v.fields <==> k in w.fields {
      assert k != "messages" ==> (k in v.fields <==> k in v.fields - {"messages"})
                                 && (k in w.fields <==> k in w.fields - {"messages"});
    }
    assert v.fields.Keys == w.fields.Keys;
    forall k | k in v.fields && k != "messages" ensures v.fields[k] == w.fields[k] {
      assert (v.fields - {"messages"})[k] == (w.fields - {"messages"})[k];
    }
  }

  /** Reordering the fields of a message does not matter either. */
  lemma MessageFieldsInAnyOrder(m: Json, side: string, a: seq<Json>, b: seq<Json>)
    requires m.Obj? && side in {"request", "response"} && side in m.fields && m.fields[side] == Arr(a)
    requires multiset(a) == multiset(b)
    ensures MessageOf(Obj(m.fields[side := Arr(b)])) == MessageOf(m)
  {
    hide FieldsOf, IsMessageName;
    FieldsInAnyOrder(a, b);
    var m' := Obj(m.fields[side := Arr(b)]);
    assert m'.fields.Keys == m.fields.Keys;
    assert "name" != side && "id" != side && "description" != side by {
      assert "name"[0] != 'r' && "id"[0] != 'r' && "description"[0] != 'r';
      assert "request"[0] == 'r' && "response"[0] == 'r';
    }
    assert "request" != "response" by {
      assert |"request"| != |"response"|;
    }
  }

  function WithMessages(v: Json, items: seq<Json>): Json
    requires v.Obj?
  {
    Obj(v.fields["messages" := Arr(items)])
  }

  /** Lists of messages that parse to the same messages are accepted alike. */
  lemma SameMessages(items: seq<Json>, others: seq<Json>)
    requires |items| == |others| && forall k :: 0 <= k < |items| ==> MessageOf(items[k]) == MessageOf(others[k])
    ensures MessagesAgree(items) <==> MessagesAgree(others)
    ensures Map(items, TheMessage) == Map(others, TheMessage)
  {
    hide MessageOf, Symbols;
    forall k | 0 <= k < |items|
      ensures TheMessage(items[k]) == TheMessage(others[k]) && (IsMessage(items[k]) <==> IsMessage(others[k]))
    {
      assert MessageOf(items[k]) == MessageOf(others[k]);
    }
    if MessagesAgree(items) {
      AgreeAlike(items, others);
    }
    if MessagesAgree(others) {
      AgreeAlike(others, items);
    }
  }

  lemma AgreeAlike(items: seq<Json>, others: seq<Json>)
    requires |items| == |others| && MessagesAgree(items)
    requires forall k :: 0 <= k < |items| ==>
               TheMessage(items[k]) == TheMessage(others[k]) && (IsMessage(items[k]) <==> IsMessage(others[k]))
    ensures MessagesAgree(others)
  {
    hide TheMessage, IsMessage, Apart;
    forall j, k | 0 <= j < k < |others| ensures MessagesApart(others[j], others[k]) {
      assert MessagesApart(items[j], items[k]);
    }
  }

  /** Reordering the fields of any message of a schema changes nothing. */
  lemma SchemaFieldsInAnyOrder(v: Json, i: nat, side: string, a: seq<Json>, b: seq<Json>)
    requires v.Obj? && "messages" in v.fields && v.fields["messages"].Arr? && i < |v.fields["messages"].items|
    requires var m := v.fields["messages"].items[i];
             m.Obj? && side in {"request", "response"} && side in m.fields && m.fields[side] == Arr(a)
    requires multiset(a) == multiset(b)
    ensures var items := v.fields["messages"].items;
            SchemaOf(WithMessages(v, items[i := Obj(items[i].fields[side := Arr(b)])])) == SchemaOf(v)
  {
    hide IsPackageName, IsNamespace, MessagesAgree, TheMessage, SortBy, MessageOf;
    var items := v.fields["messages"].items;
    var others := items[i := Obj(items[i].fields[side := Arr(b)])];
    MessageFieldsInAnyOrder(items[i], side, a, b);
    SameMessages(items, others);
    assert WithMessages(v, others).fields.Keys == v.fields.Keys;
  }

  // What may be left out, and what may not be put in

  /** A field that does not say whether it is optional is not, and one without a description has an empty one. */
  lemma DefaultsFilled(f: map<string, Json>)
    ensures FieldOf(Obj(f - {"optional"})) == FieldOf(Obj(f["optional" := Bool(false)]))
    ensures FieldOf(Obj(f - {"description"})) == FieldOf(Obj(f["description" := Str("")]))
  {
    hide IsFieldName, IsType;
    KeysDiffer();
    assert (f - {"optional"}).Keys == f.Keys - {"optional"};
    assert f["optional" := Bool(false)].Keys == f.Keys + {"optional"};
    assert (f - {"description"}).Keys == f.Keys - {"description"};
    assert f["description" := Str("")].Keys == f.Keys + {"description"};
  }

  /** The same for the description of a message. */
  lemma MessageDefaultFilled(f: map<string, Json>)
    ensures MessageOf(Obj(f - {"description"})) == MessageOf(Obj(f["description" := Str("")]))
  {
    hide IsMessageName, FieldsOf;
    KeysDiffer();
    assert (f - {"description"}).Keys == f.Keys - {"description"};
    assert f["description" := Str("")].Keys == f.Keys + {"description"};
  }

  lemma KeysDiffer()
    ensures "name" != "type" && "name" != "optional" && "name" != "description" && "type" != "optional"
    ensures "type" != "description" && "optional" != "description" && "description" != "id"
    ensures "description" != "request" && "description" != "response"
  {
    assert |"name"| == |"type"| == 4 && |"optional"| == 8 && |"description"| == 11 && |"id"| == 2;
    assert |"request"| == 7 && |"response"| == 8;
    assert "name"[0] != "type"[0];
  }

  /** Nothing with a key that is not known is accepted, nor with one missing that is needed. */
  lemma KeysAreExact(f: map<string, Json>, key: string)
    ensures key in f && key !in {"name", "type", "optional", "description"} ==> FieldOf(Obj(f)).None?
    ensures key in f && key !in {"name", "id", "request", "response", "description"} ==> MessageOf(Obj(f)).None?
    ensures key in f && key !in SCHEMA_KEYS ==> SchemaOf(Obj(f)).None?
    ensures key !in f && key in {"name", "type"} ==> FieldOf(Obj(f)).None?
    ensures key !in f && key in {"name", "id", "request", "response"} ==> MessageOf(Obj(f)).None?
    ensures key !in f && key in SCHEMA_KEYS ==> SchemaOf(Obj(f)).None?
  {
    hide IsFieldName, IsType, IsMessageName, FieldsOf, MessagesAgree, SortBy, IsPackageName, IsNamespace, TheMessage;
  }

  // validate_schema

  /** The three symbols of one message are always different. */
  lemma ThreeSymbols(name: string)
    ensures "Msg" + name != name + "Request" && "Msg" + name != name + "Response"
    ensures name + "Request" != name + "Response"
  {
    assert |"Msg" + name| == 3 + |name| && |name + "Request"| == |name| + 7 && |name + "Response"| == |name| + 8;
  }

  /** No message can clash with the two symbols that are taken from the start. */
  lemma ReservedIsFree(name: string)
    ensures Symbols(name) !! {"SchemaVersion", "ProtocolVersion"}
  {
    assert ("Msg" + name)[0] == 'M';
    assert (name + "Request")[|name| + 6] == 't' && |name + "Request"| == |name| + 7;
    assert (name + "Response")[|name| + 7] == 'e' && |name + "Response"| == |name| + 8;
    assert |"SchemaVersion"| == 13 && "SchemaVersion"[12] == 'n' && "SchemaVersion"[0] == 'S';
    assert |"ProtocolVersion"| == 15 && "ProtocolVersion"[14] == 'n' && "ProtocolVersion"[0] == 'P';
  }

  /** The inner loop over the symbols of a message. */
  method AddSymbols(name: string, symbols: set<string>) returns (r: Option<set<string>>)
    ensures r == if Symbols(name) !! symbols then Some(symbols + Symbols(name)) else None
  {
    ThreeSymbols(name);
    var list := ["Msg" + name, name + "Request", name + "Response"];
    var all := symbols;
    for i := 0 to 3
      invariant all == symbols + set j | 0 <= j < i :: list[j]
      invariant forall j :: 0 <= j < i ==> list[j] !in symbols
    {
      if list[i] in all {
        assert list[i] in symbols;
        assert list[i] in Symbols(name);
        return None;
      }
      all := all + {list[i]};
    }
    ghost var three := set j | 0 <= j < 3 :: list[j];
    assert list[0] in three && list[1] in three && list[2] in three;
    assert Symbols(name) == three;
    r := Some(all);
  }

  /** What the loop over the messages remembers. */
  ghost predicate Seen(items: seq<Json>, names: set<string>, ids: set<int>, symbols: set<string>) {
    && (forall n :: n in names <==> exists j :: 0 <= j < |items| && TheMessage(items[j]).name == n)
    && (forall n :: n in ids <==> exists j :: 0 <= j < |items| && TheMessage(items[j]).id == n)
    && (forall s :: s in symbols <==>
                    s in RESERVED || exists j :: 0 <= j < |items| && s in Symbols(TheMessage(items[j]).name))
  }

  lemma SeenMore(items: seq<Json>, names: set<string>, ids: set<int>, symbols: set<string>, next: Json)
    requires Seen(items, names, ids, symbols)
    ensures var m := TheMessage(next);
            Seen(items + [next], names + {m.name}, ids + {m.id}, symbols + Symbols(m.name))
  {
    hide TheMessage, Symbols;
    var more := items + [next];
    assert more[|items|] == next;
    assert forall j :: 0 <= j < |items| ==> more[j] == items[j];
  }

  lemma AgreeMore(items: seq<Json>, names: set<string>, ids: set<int>, symbols: set<string>, next: Json)
    requires Seen(items, names, ids, symbols) && MessagesAgree(items)
    ensures var m := TheMessage(next);
            MessagesAgree(items + [next])
            <==> MessageOf(next).Some? && m.name !in names && m.id !in ids && Symbols(m.name) !! symbols
  {
    hide TheMessage, MessageOf, Symbols;
    var more, n, m := items + [next], |items|, TheMessage(next);
    assert more[n] == next;
    assert forall j :: 0 <= j < n ==> more[j] == items[j];
    if MessagesAgree(more) {
      assert IsMessage(more[n]);
      forall j | 0 <= j < n ensures Apart(TheMessage(items[j]), m) {
        assert MessagesApart(more[j], more[n]);
      }
    }
    if m.name !in names && m.id !in ids && Symbols(m.name) !! symbols {
      forall j | 0 <= j < n ensures MessagesApart(items[j], next) {
        assert forall s :: s in Symbols(TheMessage(items[j]).name) ==> s in symbols;
      }
    }
  }

  lemma AgreePrefix(items: seq<Json>, n: nat)
    requires n <= |items| && MessagesAgree(items)
    ensures MessagesAgree(items[..n])
  {
    hide MessagesApart, IsMessage;
  }

  /** The loop over the messages. */
  method ValidateMessages(items: seq<Json>) returns (r: Option<seq<Message>>)
    ensures r == if MessagesAgree(items) then Some(Map(items, TheMessage)) else None
  {
    hide TheMessage, MessageOf, Symbols, MessagesAgree, Seen;
    var result: seq<Message> := [];
    var names: set<string>, ids: set<int>, symbols := {}, {}, RESERVED;
    SeenNone();
    for i := 0 to |items|
      invariant MessagesAgree(items[..i]) && result == Map(items[..i], TheMessage)
      invariant Seen(items[..i], names, ids, symbols)
    {
      assert items[..i + 1] == items[..i] + [items[i]];
      AgreeMore(items[..i], names, ids, symbols, items[i]);
      if MessagesAgree(items) {
        AgreePrefix(items, i + 1);
      }
      var message := ValidateMessage(items[i]);
      if message.None? {
        return None;
      }
      var m := message.value;
      if m.name in names || m.id in ids {
        return None;
      }
      var added := AddSymbols(m.name, symbols);
      if added.None? {
        return None;
      }
      SeenMore(items[..i], names, ids, symbols, items[i]);
      names, ids, symbols := names + {m.name}, ids + {m.id}, added.value;
      result := result + [m];
    }
    assert items[..|items|] == items;
    r := Some(result);
  }

  lemma SeenNone()
    ensures forall items: seq<Json> :: Seen(items[..0], {}, {}, RESERVED) && MessagesAgree(items[..0])
  {
  }

  method ValidateMessage(j: Json) returns (r: Option<Message>)
    ensures r == MessageOf(j)
    ensures r.Some? ==> r.value == TheMessage(j)
  {
    hide FieldsOf;
    if !ObjectKeys(j, {"name", "id", "request", "response"}, {"description"}) {
      return None;
    }
    if !(j.fields["name"].Str? && IsMessageName(j.fields["name"].s)) {
      return None;
    }
    if !(j.fields["id"].Int? && 0 <= j.fields["id"].n <= MAX_U32) {
      return None;
    }
    var description := DescriptionOf(j.fields);
    if description.None? {
      return None;
    }
    var request := ValidateFields(j.fields["request"]);
    if request.None? {
      return None;
    }
    var response := ValidateFields(j.fields["response"]);
    if response.None? {
      return None;
    }
    r := Some(Message(j.fields["name"].s, j.fields["id"].n, description.value, request.value, response.value));
  }

  method ValidateSchema(v: Json) returns (r: Option<Schema>)
    ensures r == SchemaOf(v)
  {
    hide IsPackageName, IsNamespace, MessagesAgree, TheMessage, SortBy;
    if !ObjectKeys(v, SCHEMA_KEYS, {}) {
      return None;
    }
    var f := v.fields;
    if !(f["schema_version"].Int? && f["schema_version"].n == 1) {
      return None;
    }
    if !(f["protocol_version"].Int? && 1 <= f["protocol_version"].n <= MAX_U32) {
      return None;
    }
    if !(f["go_package"].Str? && IsPackageName(f["go_package"].s))
       || !(f["csharp_namespace"].Str? && IsNamespace(f["csharp_namespace"].s)) {
      return None;
    }
    if f["encoding"] != Str("json") {
      return None;
    }
    if !(f["messages"].Arr? && 1 <= |f["messages"].items| <= 4096) {
      return None;
    }
    var messages := ValidateMessages(f["messages"].items);
    if messages.None? {
      return None;
    }
    r := Some(Schema(f["protocol_version"].n, f["go_package"].s, f["csharp_namespace"].s,
                     SortBy(messages.value, IdBefore)));
  }
}
