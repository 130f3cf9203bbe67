/** Flow entities to JSON and back. */
module JsonConversion {
  import opened Sequences

  newtype int64 = x: int | -0x8000_0000_0000_0000 <= x < 0x8000_0000_0000_0000
  newtype uint64 = x: int | 0 <= x < 0x1_0000_0000_0000_0000

  /** A flow value. `Unsupported` stands for every kind JSON has no counterpart for here. */
  datatype Entity =
    | Boolean(b: bool)
    | Integer(i: int64)
    | Real(r: real)
    | String(s: string)
    | Array(items: seq<Entity>)
    | Dictionary(entries: map<string, Entity>)
    | Unsupported(kind: string)

  datatype Json =
    | Null
    | JBool(b: bool)
    | JInt64(i: int64)
    | JUint64(u: uint64)
    | JDouble(r: real)
    | JString(s: string)
    | JArray(elements: seq<Json>)
    | JObject(members: map<string, Json>)

  /** The cast of an unsigned 64-bit integer to a signed one wraps around. */
  function Wrapped(u: uint64): int64 {
    if u as int < 0x8000_0000_0000_0000 then u as int as int64 else (u as int - 0x1_0000_0000_0000_0000) as int64
  }

  /** The cast keeps the integer modulo 2 to the 64th, which leaves one signed integer only. */
  lemma {:induction false} WrappedIsCongruent(u: uint64, i: int64)
    ensures i == Wrapped(u) <==> (i as int - u as int) % 0x1_0000_0000_0000_0000 == 0
  {
  }

  // ---------- entities to JSON ----------

  /**
    The JSON stands for the entity: of the same kind with the same content, the elements of arrays and
    the members of objects standing for the supported ones, in order and under their keys.
   */
  ghost predicate Encodes(e: Entity, j: Json)
    decreases e
  {
    match e
    case Boolean(b) => j == JBool(b)
    case Integer(i) => j == JInt64(i)
    case Real(r) => j == JDouble(r)
    case String(s) => j == JString(s)
    case Array(items) => j.JArray? && ItemsEncode(items, j.elements)
    case Dictionary(entries) =>
      && j.JObject? && (forall key :: key in j.members <==> key in entries && !entries[key].Unsupported?)
      && (forall key | key in j.members && key in entries :: Encodes(entries[key], j.members[key]))
    case Unsupported(_) => false
  }

  ghost predicate ItemsEncode(items: seq<Entity>, elements: seq<Json>)
    decreases items
  {
    if items == [] then elements == []
    else if items[0].Unsupported? then ItemsEncode(items[1..], elements)
    else elements != [] && Encodes(items[0], elements[0]) && ItemsEncode(items[1..], elements[1..])
  }

  function ToJson(e: Entity): Json
    requires !e.Unsupported?
    decreases e, 0
  {
    match e
    case Boolean(b) => JBool(b)
    case Integer(i) => JInt64(i)
    case Real(r) => JDouble(r)
    case String(s) => JString(s)
    case Array(items) => JArray(ItemsToJson(items))
    case Dictionary(entries) => JObject(map key | key in entries && !entries[key].Unsupported? :: ToJson(entries[key]))
  }

  /** No element for an unsupported value, one for any other. */
  function ItemToJson(item: Entity): seq<Json>
    decreases item, 1
  {
    if item.Unsupported? then [] else [ToJson(item)]
  }

  function ItemsToJson(items: seq<Entity>): seq<Json> {
    if items == [] then [] else ItemToJson(items[0]) + ItemsToJson(items[1..])
  }

  lemma {:induction false} ItemsToJsonConcat(x: seq<Entity>, y: seq<Entity>)
    ensures ItemsToJson(x + y) == ItemsToJson(x) + ItemsToJson(y)
  {
    if x == [] {
      assert x + y == y;
    } else {
      ItemsToJsonConcat(x[1..], y);
      assert (x + y)[0] == x[0] && (x + y)[1..] == x[1..] + y;
      Associates(ItemToJson(x[0]), ItemsToJson(x[1..]), ItemsToJson(y));
    }
  }

  /** Exactly one JSON value stands for a supported entity, and none for an unsupported one. */
  lemma {:induction false} EncodesIff(e: Entity, j: Json)
    ensures Encodes(e, j) <==> !e.Unsupported? && j == ToJson(e)
    decreases e
  {
    match e
    case Array(items) =>
      if j.JArray? {
        ItemsEncodeIff(items, j.elements);
      }
    case Dictionary(entries) =>
      if j.JObject? {
        forall key | key in j.members && key in entries
          ensures Encodes(entries[key], j.members[key]) <==>
                  !entries[key].Unsupported? && j.members[key] == ToJson(entries[key])
        {
          EncodesIff(entries[key], j.members[key]);
        }
        if Encodes(e, j) {
          assert j.members == ToJson(e).members;
        }
      }
    case _ =>
  }

  lemma {:induction false} ItemsEncodeIff(items: seq<Entity>, elements: seq<Json>)
    ensures ItemsEncode(items, elements) <==> elements == ItemsToJson(items)
    decreases items
  {
    if items != [] {
      if items[0].Unsupported? {
        ItemsEncodeIff(items[1..], elements);
        assert ItemsToJson(items) == ItemsToJson(items[1..]);
      } else if elements != [] {
        EncodesIff(items[0], elements[0]);
        ItemsEncodeIff(items[1..], elements[1..]);
        assert ItemsToJson(items) == [ToJson(items[0])] + ItemsToJson(items[1..]);
        FirstAndRest(elements, ToJson(items[0]), ItemsToJson(items[1..]));
      }
    }
  }

  method ArrayToJson(list: Entity) returns (result: seq<Json>)
    requires list.Array?
    ensures result == ItemsToJson(list.items) && Encodes(list, JArray(result))
    decreases list
  {
    result := [];
    for k := 0 to |list.items|
      invariant result == ItemsToJson(list.items[..k])
    {
      var value := list.items[k];
      assert list.items[..k + 1] == list.items[..k] + [value];
      ItemsToJsonConcat(list.items[..k], [value]);
      assert ItemsToJson([value]) == ItemToJson(value) + [] == ItemToJson(value);
      match value {
        case Boolean(b) => result := result + [JBool(b)];
        case Integer(i) => result := result + [JInt64(i)];
        case Real(r) => result := result + [JDouble(r)];
        case String(s) => result := result + [JString(s)];
        case Array(_) =>
          var elements := ArrayToJson(value);
          result := result + [JArray(elements)];
        case Dictionary(_) =>
          var members := DictionaryToJson(value);
          result := result + [JObject(members)];
        case Unsupported(_) =>
      }
    }
    assert list.items[..|list.items|] == list.items;
    EncodesIff(list, JArray(result));
  }

  /** The result of converting all entries but those of the keys still left. */
  ghost predicate EntriesConverted(entries: map<string, Entity>, left: set<string>, result: map<string, Json>) {
    result == map key | key in entries && key !in left && !entries[key].Unsupported? :: ToJson(entries[key])
  }

  lemma {:induction false} EntryConverted(
      entries: map<string, Entity>, left: set<string>, key: string, result: map<string, Json>)
    requires key in left && left <= entries.Keys && EntriesConverted(entries, left, result)
    ensures EntriesConverted(entries, left - {key},
              if entries[key].Unsupported? then result else result[key := ToJson(entries[key])])
  {
  }

  method DictionaryToJson(dict: Entity) returns (result: map<string, Json>)
    requires dict.Dictionary?
    ensures JObject(result) == ToJson(dict) && Encodes(dict, JObject(result))
    decreases dict
  {
    result := map[];
    var keys := dict.entries.Keys;
    while keys != {}
      invariant keys <= dict.entries.Keys
      invariant EntriesConverted(dict.entries, keys, result)
      decreases |keys|
    {
      var key: string :| key in keys;
      EntryConverted(dict.entries, keys, key, result);
      keys := keys - {key};
      var value := dict.entries[key];
      match value {
        case Boolean(b) => result := result[key := JBool(b)];
        case Integer(i) => result := result[key := JInt64(i)];
        case Real(r) => result := result[key := JDouble(r)];
        case String(s) => result := result[key := JString(s)];
        case Array(_) =>
          var elements := ArrayToJson(value);
          result := result[key := JArray(elements)];
        case Dictionary(_) =>
          var members := DictionaryToJson(value);
          result := result[key := JObject(members)];
        case Unsupported(_) =>
      }
    }
    EncodesIff(dict, JObject(result));
  }

  // ---------- JSON to entities ----------

  /** The entity the JSON stands for: an unsigned integer may change by 2 to the 64th, and nulls are skipped. */
  ghost predicate Decodes(j: Json, e: Entity)
    decreases j
  {
    match j
    case Null => false
    case JBool(b) => e == Boolean(b)
    case JInt64(i) => e == Integer(i)
    case JUint64(u) => e.Integer? && (e.i as int - u as int) % 0x1_0000_0000_0000_0000 == 0
    case JDouble(r) => e == Real(r)
    case JString(s) => e == String(s)
    case JArray(elements) => e.Array? && ElementsDecode(elements, e.items)
    case JObject(members) =>
      && e.Dictionary? && (forall key :: key in e.entries <==> key in members && !members[key].Null?)
      && (forall key | key in e.entries && key in members :: Decodes(members[key], e.entries[key]))
  }

  ghost predicate ElementsDecode(elements: seq<Json>, items: seq<Entity>)
    decreases elements
  {
    if elements == [] then items == []
    else if elements[0].Null? then ElementsDecode(elements[1..], items)
    else items != [] && Decodes(elements[0], items[0]) && ElementsDecode(elements[1..], items[1..])
  }

  function FromJson(j: Json): Entity
    requires !j.Null?
    decreases j, 0
  {
    match j
    case JBool(b) => Boolean(b)
    case JInt64(i) => Integer(i)
    case JUint64(u) => Integer(Wrapped(u))
    case JDouble(r) => Real(r)
    case JString(s) => String(s)
    case JArray(elements) => Array(ElementsFromJson(elements))
    case JObject(members) => Dictionary(map key | key in members && !members[key].Null? :: FromJson(members[key]))
  }

  function ElementFromJson(element: Json): seq<Entity>
    decreases element, 1
  {
    if element.Null? then [] else [FromJson(element)]
  }

  function ElementsFromJson(elements: seq<Json>): seq<Entity> {
    if elements == [] then [] else ElementFromJson(elements[0]) + ElementsFromJson(elements[1..])
  }

  lemma {:induction false} ElementsFromJsonConcat(x: seq<Json>, y: seq<Json>)
    ensures ElementsFromJson(x + y) == ElementsFromJson(x) + ElementsFromJson(y)
  {
    if x == [] {
      assert x + y == y;
    } else {
      ElementsFromJsonConcat(x[1..], y);
      assert (x + y)[0] == x[0] && (x + y)[1..] == x[1..] + y;
      Associates(ElementFromJson(x[0]), ElementsFromJson(x[1..]), ElementsFromJson(y));
    }
  }

  /** JSON other than null stands for exactly one entity. */
  lemma {:induction false} DecodesIff(j: Json, e: Entity)
    ensures Decodes(j, e) <==> !j.Null? && e == FromJson(j)
    decreases j
  {
    match j
    case JUint64(u) =>
      if e.Integer? {
        WrappedIsCongruent(u, e.i);
      }
    case JArray(elements) =>
      if e.Array? {
        ElementsDecodeIff(elements, e.items);
      }
    case JObject(members) =>
      if e.Dictionary? {
        forall key | key in e.entries && key in members
          ensures Decodes(members[key], e.entries[key]) <==>
                  !members[key].Null? && e.entries[key] == FromJson(members[key])
        {
          DecodesIff(members[key], e.entries[key]);
        }
        if Decodes(j, e) {
          assert e.entries == FromJson(j).entries;
        }
      }
    case _ =>
  }

  lemma {:induction false} ElementsDecodeIff(elements: seq<Json>, items: seq<Entity>)
    ensures ElementsDecode(elements, items) <==> items == ElementsFromJson(elements)
    decreases elements
  {
    if elements != [] {
      if elements[0].Null? {
        ElementsDecodeIff(elements[1..], items);
        assert ElementsFromJson(elements) == ElementsFromJson(elements[1..]);
      } else if items != [] {
        DecodesIff(elements[0], items[0]);
        ElementsDecodeIff(elements[1..], items[1..]);
        assert ElementsFromJson(elements) == [FromJson(elements[0])] + ElementsFromJson(elements[1..]);
        FirstAndRest(items, FromJson(elements[0]), ElementsFromJson(elements[1..]));
      }
    }
  }

  method ArrayFromJson(list: Json) returns (result: seq<Entity>)
    requires list.JArray?
    ensures result == ElementsFromJson(list.elements) && Decodes(list, Array(result))
    decreases list
  {
    result := [];
    for k := 0 to |list.elements|
      invariant result == ElementsFromJson(list.elements[..k])
    {
      var value := list.elements[k];
      assert list.elements[..k + 1] == list.elements[..k] + [value];
      ElementsFromJsonConcat(list.elements[..k], [value]);
      assert ElementsFromJson([value]) == ElementFromJson(value) + [] == ElementFromJson(value);
      if value.JBool? {
        result := result + [Boolean(value.b)];
      } else if value.JInt64? {
        result := result + [Integer(value.i)];
      } else if value.JUint64? {
        result := result + [Integer(Wrapped(value.u))];
      } else if value.JDouble? {
        result := result + [Real(value.r)];
      } else if value.JString? {
        result := result + [String(value.s)];
      } else if value.JArray? {
        var items := ArrayFromJson(value);
        result := result + [Array(items)];
      } else if value.JObject? {
        var entries := DictionaryFromJson(value);
        result := result + [Dictionary(entries)];
      }
    }
    assert list.elements[..|list.elements|] == list.elements;
    DecodesIff(list, Array(result));
  }

  /** The result of converting all members but those of the keys still left. */
  ghost predicate MembersConverted(members: map<string, Json>, left: set<string>, result: map<string, Entity>) {
    result == map key | key in members && key !in left && !members[key].Null? :: FromJson(members[key])
  }

  lemma {:induction false} MemberConverted(
      members: map<string, Json>, left: set<string>, key: string, result: map<string, Entity>)
    requires key in left && left <= members.Keys && MembersConverted(members, left, result)
    ensures MembersConverted(members, left - {key},
              if members[key].Null? then result else result[key := FromJson(members[key])])
  {
  }

  method DictionaryFromJson(source: Json) returns (result: map<string, Entity>)
    requires source.JObject?
    ensures Dictionary(result) == FromJson(source) && Decodes(source, Dictionary(result))
    decreases source
  {
    result := map[];
    var keys := source.members.Keys;
    while keys != {}
      invariant keys <= source.members.Keys
      invariant MembersConverted(source.members, keys, result)
      decreases |keys|
    {
      var key: string :| key in keys;
      MemberConverted(source.members, keys, key, result);
      keys := keys - {key};
      var value := source.members[key];
      if value.JBool? {
        result := result[key := Boolean(value.b)];
      } else if value.JInt64? {
        result := result[key := Integer(value.i)];
      } else if value.JUint64? {
        result := result[key := Integer(Wrapped(value.u))];
      } else if value.JDouble? {
        result := result[key := Real(value.r)];
      } else if value.JString? {
        result := result[key := String(value.s)];
      } else if value.JArray? {
        var items := ArrayFromJson(value);
        result := result[key := Array(items)];
      } else if value.JObject? {
        var entries := DictionaryFromJson(value);
        result := result[key := Dictionary(entries)];
      }
    }
    DecodesIff(source, Dictionary(result));
  }

  // ---------- there and back: entities ----------

  /** The entity with every unsupported value left out, at every depth. */
  function Prune(e: Entity): (r: Entity)
    requires !e.Unsupported?
    ensures !r.Unsupported?
  {
    match e
    case Array(items) => Array(PruneItems(items))
    case Dictionary(entries) =>
      Dictionary(map key | key in entries && !entries[key].Unsupported? :: Prune(entries[key]))
    case _ => e
  }

  function PruneItems(items: seq<Entity>): seq<Entity> {
    if items == [] then []
    else (if items[0].Unsupported? then [] else [Prune(items[0])]) + PruneItems(items[1..])
  }

  /** There is no unsupported value in the entity, at any depth. */
  predicate Clean(e: Entity) {
    match e
    case Array(items) => forall k | 0 <= k < |items| :: Clean(items[k])
    case Dictionary(entries) => forall key | key in entries :: Clean(entries[key])
    case Unsupported(_) => false
    case _ => true
  }

  /** Converting to JSON and back leaves out exactly the unsupported values. */
  lemma {:induction false} RoundTripPrunes(e: Entity)
    requires !e.Unsupported?
    ensures !ToJson(e).Null? && FromJson(ToJson(e)) == Prune(e)
    decreases e
  {
    match e
    case Array(items) => ItemsRoundTrip(items);
    case Dictionary(entries) =>
      forall key | key in entries && !entries[key].Unsupported?
        ensures !ToJson(entries[key]).Null? && FromJson(ToJson(entries[key])) == Prune(entries[key])
      {
        RoundTripPrunes(entries[key]);
      }
    case _ =>
  }

  lemma {:induction false} ItemsRoundTrip(items: seq<Entity>)
    ensures ElementsFromJson(ItemsToJson(items)) == PruneItems(items)
    decreases items
  {
    if items != [] {
      ItemsRoundTrip(items[1..]);
      if !items[0].Unsupported? {
        RoundTripPrunes(items[0]);
        assert ItemsToJson(items) == [ToJson(items[0])] + ItemsToJson(items[1..]);
        assert ItemsToJson(items)[1..] == ItemsToJson(items[1..]);
      } else {
        assert ItemsToJson(items) == ItemsToJson(items[1..]);
      }
    }
  }

  lemma {:induction false} PruneIsClean(e: Entity)
    requires !e.Unsupported?
    ensures Clean(Prune(e))
    decreases e
  {
    match e
    case Array(items) => PruneItemsAreClean(items);
    case Dictionary(entries) =>
      forall key | key in entries && !entries[key].Unsupported? ensures Clean(Prune(entries[key])) {
        PruneIsClean(entries[key]);
      }
    case _ =>
  }

  lemma {:induction false} PruneItemsAreClean(items: seq<Entity>)
    ensures forall k | 0 <= k < |PruneItems(items)| :: Clean(PruneItems(items)[k])
    decreases items
  {
    if items != [] {
      PruneItemsAreClean(items[1..]);
      if !items[0].Unsupported? {
        PruneIsClean(items[0]);
      }
    }
  }

  lemma {:induction false} CleanIsUnpruned(e: Entity)
    requires Clean(e)
    ensures Prune(e) == e
    decreases e
  {
    match e
    case Array(items) => CleanItemsAreUnpruned(items);
    case Dictionary(entries) =>
      forall key | key in entries ensures !entries[key].Unsupported? && Prune(entries[key]) == entries[key] {
        CleanIsUnpruned(entries[key]);
      }
    case _ =>
  }

  lemma {:induction false} CleanItemsAreUnpruned(items: seq<Entity>)
    requires forall k | 0 <= k < |items| :: Clean(items[k])
    ensures PruneItems(items) == items
    decreases items
  {
    if items != [] {
      CleanIsUnpruned(items[0]);
      CleanItemsAreUnpruned(items[1..]);
    }
  }

  /** An entity survives the round trip unchanged exactly when it is clean. */
  lemma {:induction false} RoundTripIsIdentityIff(e: Entity)
    requires !e.Unsupported?
    ensures !ToJson(e).Null?
    ensures FromJson(ToJson(e)) == e <==> Clean(e)
  {
    RoundTripPrunes(e);
    PruneIsClean(e);
    if Clean(e) {
      CleanIsUnpruned(e);
    }
  }

  // ---------- there and back: JSON ----------

  /** The JSON with every null left out and every unsigned integer cast, at every depth. */
  function Normalize(j: Json): (r: Json)
    requires !j.Null?
    ensures !r.Null?
  {
    match j
    case JUint64(u) => JInt64(Wrapped(u))
    case JArray(elements) => JArray(NormalizeElements(elements))
    case JObject(members) => JObject(map key | key in members && !members[key].Null? :: Normalize(members[key]))
    case _ => j
  }

  function NormalizeElements(elements: seq<Json>): seq<Json> {
    if elements == [] then []
    else (if elements[0].Null? then [] else [Normalize(elements[0])]) + NormalizeElements(elements[1..])
  }

  /** There is no null and no unsigned integer in the JSON, at any depth. */
  predicate Plain(j: Json) {
    match j
    case Null => false
    case JUint64(_) => false
    case JArray(elements) => forall k | 0 <= k < |elements| :: Plain(elements[k])
    case JObject(members) => forall key | key in members :: Plain(members[key])
    case _ => true
  }

  lemma {:induction false} BackTripNormalizes(j: Json)
    requires !j.Null?
    ensures !FromJson(j).Unsupported? && ToJson(FromJson(j)) == Normalize(j)
    decreases j
  {
    match j
    case JArray(elements) => ElementsBackTrip(elements);
    case JObject(members) =>
      forall key | key in members && !members[key].Null?
        ensures !FromJson(members[key]).Unsupported? && ToJson(FromJson(members[key])) == Normalize(members[key])
      {
        BackTripNormalizes(members[key]);
      }
    case _ =>
  }

  lemma {:induction false} ElementsBackTrip(elements: seq<Json>)
    ensures ItemsToJson(ElementsFromJson(elements)) == NormalizeElements(elements)
    decreases elements
  {
    if elements != [] {
      ElementsBackTrip(elements[1..]);
      if !elements[0].Null? {
        BackTripNormalizes(elements[0]);
        assert ElementsFromJson(elements) == [FromJson(elements[0])] + ElementsFromJson(elements[1..]);
        assert ElementsFromJson(elements)[1..] == ElementsFromJson(elements[1..]);
      } else {
        assert ElementsFromJson(elements) == ElementsFromJson(elements[1..]);
      }
    }
  }

  lemma {:induction false} NormalIsPlain(j: Json)
    requires !j.Null?
    ensures Plain(Normalize(j))
    decreases j
  {
    match j
    case JArray(elements) => NormalElementsArePlain(elements);
    case JObject(members) =>
      forall key | key in members && !members[key].Null? ensures Plain(Normalize(members[key])) {
        NormalIsPlain(members[key]);
      }
    case _ =>
  }

  lemma {:induction false} NormalElementsArePlain(elements: seq<Json>)
    ensures forall k | 0 <= k < |NormalizeElements(elements)| :: Plain(NormalizeElements(elements)[k])
    decreases elements
  {
    if elements != [] {
      NormalElementsArePlain(elements[1..]);
      if !elements[0].Null? {
        NormalIsPlain(elements[0]);
      }
    }
  }

  lemma {:induction false} PlainIsNormal(j: Json)
    requires Plain(j)
    ensures Normalize(j) == j
    decreases j
  {
    match j
    case JArray(elements) => PlainElementsAreNormal(elements);
    case JObject(members) =>
      forall key | key in members ensures !members[key].Null? && Normalize(members[key]) == members[key] {
        PlainIsNormal(members[key]);
      }
    case _ =>
  }

  lemma {:induction false} PlainElementsAreNormal(elements: seq<Json>)
    requires forall k | 0 <= k < |elements| :: Plain(elements[k])
    ensures NormalizeElements(elements) == elements
    decreases elements
  {
    if elements != [] {
      PlainIsNormal(elements[0]);
      PlainElementsAreNormal(elements[1..]);
    }
  }

  /** JSON survives the trip to entities and back exactly when it holds no null and no unsigned integer. */
  lemma {:induction false} BackTripIsIdentityIff(j: Json)
    requires !j.Null?
    ensures !FromJson(j).Unsupported?
    ensures ToJson(FromJson(j)) == j <==> Plain(j)
  {
    BackTripNormalizes(j);
    NormalIsPlain(j);
    if Plain(j) {
      PlainIsNormal(j);
    }
  }

  /** A null in an array is lost, and the largest unsigned integer comes back as -1. */
  lemma {:induction false} BackTripLoses()
    ensures ToJson(FromJson(JArray([Null]))) == JArray([])
    ensures ToJson(FromJson(JUint64(0xFFFF_FFFF_FFFF_FFFF))) == JInt64(-1)
  {
    assert ElementsFromJson([Null]) == ElementsFromJson([Null][1..]);
  }
}
