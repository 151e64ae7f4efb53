/** neo/VM/InteropService.py: stack items as trees of bytes, and the trees read back. */
module StackItemSerializer {
  import opened BigInteger
  import opened BinaryIO
  import opened Bytes
  import opened Wrappers

  datatype Entry = Entry(key: Item, value: Item)

  datatype Item =
    | ByteArray(bytes: seq<byte>)
    | Boolean(flag: bool)
    | Integer(value: int)
    | Array(items: seq<Item>)
    | Struct(items: seq<Item>)
    | Map(entries: seq<Entry>)

  const BYTE_ARRAY: byte := 0x00
  const BOOLEAN: byte := 0x01
  const INTEGER: byte := 0x02
  const ARRAY: byte := 0x80
  const STRUCT: byte := 0x81
  const MAP: byte := 0x82

  // ---- dictionaries --------------------------------------------------------------------------

  function ContentHash(b: seq<byte>): int {
    if b == [] then 17 else 31 * ContentHash(b[..|b| - 1]) + b[|b| - 1]
  }

  /** Byte arrays and integers hash by content; every other item hashes by identity. */
  function KeyHash(key: Item): Option<int> {
    match key
    case ByteArray(b) => Some(ContentHash(b))
    case Integer(x) => Some(ContentHash(Encode(x)))
    case _ => None
  }

  /** Items that a dictionary takes for one key: their hashes are compared, not their bytes. */
  predicate SameKey(a: Item, b: Item) {
    KeyHash(a).Some? && KeyHash(a) == KeyHash(b)
  }

  /**
   * Two-byte keys are taken for one exactly if their hashes agree, as for [0, 31] and [1, 0]: a dictionary keeps
   * a single entry for both.
   */
  lemma KeysCollideIff(a: byte, b: byte, c: byte, d: byte)
    ensures SameKey(ByteArray([a, b]), ByteArray([c, d])) <==> 31 * a + b == 31 * c + d
    ensures SameKey(ByteArray([0, 31]), ByteArray([1, 0]))
    ensures ContentHash([a]) == 527 + a && !SameKey(ByteArray([a]), ByteArray([c, d]))
  {
    HashOfTwo(a, b);
    HashOfTwo(c, d);
    HashOfTwo(0, 31);
    HashOfTwo(1, 0);
    HashOfOne(a);
  }

  lemma HashOfOne(a: byte)
    ensures ContentHash([a]) == 527 + a
  {
    assert [a][..0] == [];
  }

  lemma HashOfTwo(a: byte, b: byte)
    ensures var x: int, y: int := a, b; ContentHash([a, b]) == 16337 + 31 * x + y
  {
    assert [a, b][..1] == [a];
    HashOfOne(a);
  }

  predicate HasKey(entries: seq<Entry>, key: Item) {
    exists i :: 0 <= i < |entries| && SameKey(entries[i].key, key)
  }

  /** Assigning to a dictionary: an equal key keeps its place, a new one goes to the end. */
  function SetItem(entries: seq<Entry>, key: Item, value: Item): (r: seq<Entry>)
    ensures !HasKey(entries, key) ==> r == entries + [Entry(key, value)]
    ensures HasKey(entries, key) ==> |r| == |entries| && forall i :: 0 <= i < |r| ==> r[i].key == entries[i].key
  {
    if entries == [] then [Entry(key, value)]
    else if SameKey(entries[0].key, key) then [Entry(entries[0].key, value)] + entries[1..]
    else
      assert HasKey(entries[1..], key) ==> HasKey(entries, key) by {
        if HasKey(entries[1..], key) {
          var i :| 0 <= i < |entries[1..]| && SameKey(entries[1..][i].key, key);
          assert SameKey(entries[i + 1].key, key);
        }
      }
      assert HasKey(entries, key) ==> HasKey(entries[1..], key) by {
        if HasKey(entries, key) {
          var i :| 0 <= i < |entries| && SameKey(entries[i].key, key);
          assert SameKey(entries[1..][i - 1].key, key);
        }
      }
      [entries[0]] + SetItem(entries[1..], key, value)
  }

  predicate DistinctKeys(entries: seq<Entry>) {
    forall i, j :: 0 <= i < j < |entries| ==> !SameKey(entries[i].key, entries[j].key)
  }

  lemma SetItemKeepsKeysDistinct(entries: seq<Entry>, key: Item, value: Item)
    requires DistinctKeys(entries)
    ensures DistinctKeys(SetItem(entries, key, value))
  {
    hide Encode, SetItem, KeyHash;
    var r := SetItem(entries, key, value);
    if !HasKey(entries, key) {
      forall i, j | 0 <= i < j < |r| ensures !SameKey(r[i].key, r[j].key) {
        assert SameKey(entries[i].key, key) ==> HasKey(entries, key);
      }
    }
  }

  // ---- the trees the machine can build -------------------------------------------------------

  /** A dictionary never holds one key twice, and no list is longer than `sys.maxsize`. */
  predicate WellFormed(item: Item)
    decreases item
  {
    match item
    case ByteArray(b) => |b| <= MAXSIZE
    case Boolean(_) => true
    case Integer(x) => |Encode(x)| <= MAXSIZE
    case Array(items) => |items| <= MAXSIZE && forall x | x in items :: WellFormed(x)
    case Struct(items) => |items| <= MAXSIZE && forall x | x in items :: WellFormed(x)
    case Map(entries) =>
      && |entries| <= MAXSIZE
      && DistinctKeys(entries)
      && forall e | e in entries :: WellFormed(e.key) && WellFormed(e.value)
  }

  // ---- bytes ---------------------------------------------------------------------------------

  function Serialized(item: Item): (s: seq<byte>)
    ensures |s| > 0
    decreases item
  {
    match item
    case ByteArray(b) => [BYTE_ARRAY] + VarBytes(b)
    case Boolean(flag) => [BOOLEAN, if flag then 1 else 0]
    case Integer(x) => [INTEGER] + VarBytes(Encode(x))
    case Array(items) => [ARRAY] + (VarInt(|items|) + SerializedItems(items))
    case Struct(items) => [STRUCT] + (VarInt(|items|) + SerializedItems(items))
    case Map(entries) => [MAP] + (VarInt(|entries|) + SerializedEntries(entries))
  }

  /** The first byte of every kind of item. */
  lemma TypeBytes(item: Item)
    ensures Serialized(item)[0] == match item
      case ByteArray(_) => 0x00
      case Boolean(_) => 0x01
      case Integer(_) => 0x02
      case Array(_) => 0x80
      case Struct(_) => 0x81
      case Map(_) => 0x82
  {
  }

  function SerializedItems(items: seq<Item>): seq<byte>
    decreases items
  {
    if items == [] then [] else Serialized(items[0]) + SerializedItems(items[1..])
  }

  function SerializedEntries(entries: seq<Entry>): seq<byte>
    decreases entries
  {
    if entries == [] then [] else SerializedEntry(entries[0]) + SerializedEntries(entries[1..])
  }

  function SerializedEntry(e: Entry): seq<byte>
    decreases e
  {
    Serialized(e.key) + Serialized(e.value)
  }

  function Deserialized(s: seq<byte>, pos: nat): (r: Read<Item>)
    requires pos <= |s|
    ensures r.Read? ==> pos < r.pos <= |s|
    decreases |s| - pos, 0
  {
    if pos == |s| then ReadError
    else if s[pos] == BYTE_ARRAY then
      match ReadVarBytesAt(s, pos + 1)
      case ReadError => ReadError
      case Read(b, next) => Read(ByteArray(b), next)
    else if s[pos] == BOOLEAN then
      if pos + 1 == |s| then ReadError else Read(Boolean(s[pos + 1] != 0), pos + 2)
    else if s[pos] == INTEGER then
      match ReadVarBytesAt(s, pos + 1)
      case ReadError => ReadError
      case Read(b, next) => Read(Integer(FromLESigned(b)), next)
    else if s[pos] == ARRAY || s[pos] == STRUCT then
      match ReadVarIntAt(s, pos + 1)
      case ReadError => ReadError
      case Read(count, next) =>
        (match DeserializedItems(s, next, count, [])
         case ReadError => ReadError
         case Read(items, end) => Read(if s[pos] == ARRAY then Array(items) else Struct(items), end))
    else if s[pos] == MAP then
      match ReadVarIntAt(s, pos + 1)
      case ReadError => ReadError
      case Read(count, next) =>
        (match DeserializedEntries(s, next, count, [])
         case ReadError => ReadError
         case Read(entries, end) => Read(Map(entries), end))
    else ReadError
  }

  /** The loops over `count`, with what they have built so far. */
  function DeserializedItems(s: seq<byte>, pos: nat, count: nat, items: seq<Item>): (r: Read<seq<Item>>)
    requires pos <= |s|
    ensures r.Read? ==> pos <= r.pos <= |s|
    decreases |s| - pos, 1
  {
    if count == 0 then Read(items, pos)
    else
      match Deserialized(s, pos)
      case ReadError => ReadError
      case Read(item, next) => DeserializedItems(s, next, count - 1, items + [item])
  }

  function DeserializedEntries(s: seq<byte>, pos: nat, count: nat, entries: seq<Entry>): (r: Read<seq<Entry>>)
    requires pos <= |s|
    ensures r.Read? ==> pos <= r.pos <= |s|
    decreases |s| - pos, 1
  {
    if count == 0 then Read(entries, pos)
    else
      match Deserialized(s, pos)
      case ReadError => ReadError
      case Read(key, next) =>
        (match Deserialized(s, next)
         case ReadError => ReadError
         case Read(value, end) => DeserializedEntries(s, end, count - 1, SetItem(entries, key, value)))
  }

  // ---- the round trip ------------------------------------------------------------------------

  /**
   * Wherever a tree's bytes stand in a stream and whatever follows them, reading there gives the
   * tree back and stops at its last byte.
   */
  lemma {:induction false} RoundTrip(s: seq<byte>, pos: nat, item: Item)
    requires WellFormed(item) && At(s, pos, Serialized(item))
    ensures Deserialized(s, pos) == Read(item, pos + |Serialized(item)|)
    decreases item
  {
    hide At, DistinctKeys, DeserializedItems, DeserializedEntries;
    hide VarInt, Encode, ReadVarIntAt, ReadVarBytesAt, VarBytes, FromLESigned, SerializedItems, SerializedEntries;
    match item
    case ByteArray(b) =>
      Tagged(s, pos, BYTE_ARRAY, VarBytes(b));
      VarBytesRoundTrip(s, pos + 1, b);
    case Boolean(flag) =>
      var b: byte := if flag then 1 else 0;
      Tagged(s, pos, BOOLEAN, [b]) by { assert [BOOLEAN, b] == [BOOLEAN] + [b]; }
      Tagged(s, pos + 1, b, []) by { assert [b] + [] == [b]; }
    case Integer(x) =>
      Tagged(s, pos, INTEGER, VarBytes(Encode(x)));
      VarBytesRoundTrip(s, pos + 1, Encode(x));
      BigInteger.RoundTrip(x);
    case Array(items) =>
      Tagged(s, pos, ARRAY, VarInt(|items|) + SerializedItems(items));
      ListRoundTrip(s, pos + 1, items);
    case Struct(items) =>
      Tagged(s, pos, STRUCT, VarInt(|items|) + SerializedItems(items));
      ListRoundTrip(s, pos + 1, items);
    case Map(entries) =>
      Tagged(s, pos, MAP, VarInt(|entries|) + SerializedEntries(entries));
      DictRoundTrip(s, pos + 1, entries);
  }

  lemma Tagged(s: seq<byte>, pos: nat, tag: byte, body: seq<byte>)
    requires At(s, pos, [tag] + body)
    ensures s[pos] == tag && At(s, pos + 1, body)
  {
    AtConcat(s, pos, [tag], body);
    assert s[pos] == s[pos..pos + 1][0];
  }

  lemma {:induction false} ListRoundTrip(s: seq<byte>, pos: nat, items: seq<Item>)
    requires |items| <= MAXSIZE && forall x | x in items :: WellFormed(x)
    requires At(s, pos, VarInt(|items|) + SerializedItems(items))
    ensures ReadVarIntAt(s, pos) == Read(|items|, pos + |VarInt(|items|)|)
    ensures pos + |VarInt(|items|)| <= |s|
    ensures DeserializedItems(s, pos + |VarInt(|items|)|, |items|, [])
         == Read(items, pos + |VarInt(|items|)| + |SerializedItems(items)|)
    decreases items, 1
  {
    hide VarInt, ReadVarIntAt, SerializedItems, DeserializedItems;
    AtConcat(s, pos, VarInt(|items|), SerializedItems(items));
    VarIntRoundTrip(s, pos, |items|);
    ItemsRoundTrip(s, pos + |VarInt(|items|)|, items, []);
    assert [] + items == items;
  }

  lemma {:induction false} ItemsRoundTrip(s: seq<byte>, pos: nat, items: seq<Item>, done: seq<Item>)
    requires forall x | x in items :: WellFormed(x)
    requires At(s, pos, SerializedItems(items))
    ensures DeserializedItems(s, pos, |items|, done) == Read(done + items, pos + |SerializedItems(items)|)
    decreases items, 0
  {
    hide Serialized, Deserialized, WellFormed;
    if items == [] {
      assert done + items == done;
    } else {
      var first, rest := Serialized(items[0]), SerializedItems(items[1..]);
      AtConcat(s, pos, first, rest);
      RoundTrip(s, pos, items[0]);
      ItemsRoundTrip(s, pos + |first|, items[1..], done + [items[0]]);
      assert done + [items[0]] + items[1..] == done + items;
    }
  }

  lemma {:induction false} DictRoundTrip(s: seq<byte>, pos: nat, entries: seq<Entry>)
    requires |entries| <= MAXSIZE && forall e | e in entries :: WellFormed(e.key) && WellFormed(e.value)
    requires DistinctKeys(entries)
    requires At(s, pos, VarInt(|entries|) + SerializedEntries(entries))
    ensures ReadVarIntAt(s, pos) == Read(|entries|, pos + |VarInt(|entries|)|)
    ensures pos + |VarInt(|entries|)| <= |s|
    ensures DeserializedEntries(s, pos + |VarInt(|entries|)|, |entries|, [])
         == Read(entries, pos + |VarInt(|entries|)| + |SerializedEntries(entries)|)
    decreases entries, 1
  {
    hide VarInt, ReadVarIntAt, SerializedEntries, DeserializedEntries, SameKey;
    AtConcat(s, pos, VarInt(|entries|), SerializedEntries(entries));
    VarIntRoundTrip(s, pos, |entries|);
    assert [] + entries == entries;
    EntriesRoundTrip(s, pos + |VarInt(|entries|)|, entries, []);
  }

  lemma {:induction false} EntriesRoundTrip(s: seq<byte>, pos: nat, entries: seq<Entry>, done: seq<Entry>)
    requires forall e | e in entries :: WellFormed(e.key) && WellFormed(e.value)
    requires DistinctKeys(done + entries)
    requires At(s, pos, SerializedEntries(entries))
    ensures DeserializedEntries(s, pos, |entries|, done) == Read(done + entries, pos + |SerializedEntries(entries)|)
    decreases entries, 0
  {
    hide SerializedEntry, Deserialized, WellFormed, SetItem, SameKey, HasKey, DistinctKeys, ReadVarIntAt;
    if entries == [] {
      assert done + entries == done;
    } else {
      var e := entries[0];
      AtConcat(s, pos, SerializedEntry(e), SerializedEntries(entries[1..]));
      EntryRoundTrip(s, pos, e);
      KeyIsNew(done, entries);
      assert done + [e] + entries[1..] == done + entries;
      EntriesRoundTrip(s, pos + |SerializedEntry(e)|, entries[1..], done + [e]);
    }
  }

  lemma KeyIsNew(done: seq<Entry>, entries: seq<Entry>)
    requires entries != [] && DistinctKeys(done + entries)
    ensures !HasKey(done, entries[0].key)
  {
    hide SameKey;
    var all := done + entries;
    forall i | 0 <= i < |done| ensures !SameKey(done[i].key, entries[0].key) {
      assert all[i] == done[i] && all[|done|] == entries[0];
    }
  }

  lemma {:induction false} EntryRoundTrip(s: seq<byte>, pos: nat, e: Entry)
    requires WellFormed(e.key) && WellFormed(e.value)
    requires At(s, pos, SerializedEntry(e))
    ensures var next := pos + |Serialized(e.key)|;
      && Deserialized(s, pos) == Read(e.key, next)
      && next <= |s|
      && Deserialized(s, next) == Read(e.value, pos + |SerializedEntry(e)|)
    decreases e
  {
    hide Serialized, Deserialized, WellFormed;
    AtConcat(s, pos, Serialized(e.key), Serialized(e.value));
    RoundTrip(s, pos, e.key);
    RoundTrip(s, pos + |Serialized(e.key)|, e.value);
  }

  /** No tree's bytes are the beginning of another's. */
  lemma SerializedIsPrefixFree(a: Item, b: Item, restA: seq<byte>, restB: seq<byte>)
    requires WellFormed(a) && WellFormed(b)
    requires Serialized(a) + restA == Serialized(b) + restB
    ensures a == b && restA == restB
  {
    hide *;
    var s := Serialized(a) + restA;
    AtStart(Serialized(a), restA);
    AtStart(Serialized(b), restB);
    RoundTrip(s, 0, a);
    RoundTrip(s, 0, b);
    assert restA == s[|Serialized(a)|..] == restB;
  }

  lemma AtStart(a: seq<byte>, b: seq<byte>)
    ensures At(a + b, 0, a)
  {
    assert (a + b)[0..|a|] == a;
  }

  // ---- the methods ---------------------------------------------------------------------------

  method Serialize(item: Item, writer: BinaryWriter)
    requires WellFormed(item)
    modifies writer
    ensures writer.stream == old(writer.stream) + Serialized(item)
    decreases item
  {
    hide VarInt, VarBytes, Encode, SerializedItems, SerializedEntries, DistinctKeys;
    ghost var before := writer.stream;
    match item
    case ByteArray(b) =>
      writer.WriteByte(BYTE_ARRAY);
      var ok := writer.WriteVarBytes(b);
      Associate(before, [BYTE_ARRAY], VarBytes(b));
    case Boolean(flag) =>
      writer.WriteByte(BOOLEAN);
      writer.WriteByte(if flag then 1 else 0);
      assert before + [BOOLEAN] + [if flag then 1 else 0] == before + [BOOLEAN, if flag then 1 else 0];
    case Integer(x) =>
      writer.WriteByte(INTEGER);
      var b := ToByteArray(x);
      var ok := writer.WriteVarBytes(b);
      Associate(before, [INTEGER], VarBytes(b));
    case Array(items) =>
      writer.WriteByte(ARRAY);
      SerializeList(items, writer);
      Associate(before, [ARRAY], VarInt(|items|) + SerializedItems(items));
    case Struct(items) =>
      writer.WriteByte(STRUCT);
      SerializeList(items, writer);
      Associate(before, [STRUCT], VarInt(|items|) + SerializedItems(items));
    case Map(entries) =>
      writer.WriteByte(MAP);
      SerializeDict(entries, writer);
      Associate(before, [MAP], VarInt(|entries|) + SerializedEntries(entries));
  }

  method SerializeList(items: seq<Item>, writer: BinaryWriter)
    requires |items| <= MAXSIZE && forall x | x in items :: WellFormed(x)
    modifies writer
    ensures writer.stream == old(writer.stream) + (VarInt(|items|) + SerializedItems(items))
    decreases items
  {
    hide VarInt, Serialized, WellFormed;
    var ok := writer.WriteVarInt(|items|);
    for i := 0 to |items|
      invariant writer.stream + SerializedItems(items[i..])
             == old(writer.stream) + (VarInt(|items|) + SerializedItems(items))
    {
      assert items[i..][0] == items[i] && items[i..][1..] == items[i + 1..];
      Serialize(items[i], writer);
    }
  }

  method SerializeDict(entries: seq<Entry>, writer: BinaryWriter)
    requires |entries| <= MAXSIZE && forall e | e in entries :: WellFormed(e.key) && WellFormed(e.value)
    modifies writer
    ensures writer.stream == old(writer.stream) + (VarInt(|entries|) + SerializedEntries(entries))
    decreases entries
  {
    hide VarInt, SerializedEntry, WellFormed;
    var ok := writer.WriteVarInt(|entries|);
    for i := 0 to |entries|
      invariant writer.stream + SerializedEntries(entries[i..])
             == old(writer.stream) + (VarInt(|entries|) + SerializedEntries(entries))
    {
      assert entries[i..][0] == entries[i] && entries[i..][1..] == entries[i + 1..];
      SerializeEntry(entries[i], writer);
    }
  }

  method SerializeEntry(e: Entry, writer: BinaryWriter)
    requires WellFormed(e.key) && WellFormed(e.value)
    modifies writer
    ensures writer.stream == old(writer.stream) + SerializedEntry(e)
    decreases e
  {
    hide Serialized, WellFormed;
    Serialize(e.key, writer);
    Serialize(e.value, writer);
  }

  /** `None` stands for the exceptions on short input and on unknown type bytes. */
  method DeserializeStackItem(reader: BinaryReader) returns (r: Option<Item>)
    requires reader.pos <= |reader.stream|
    modifies reader
    ensures reader.pos <= |reader.stream|
    ensures match Deserialized(reader.stream, old(reader.pos))
      case ReadError => r == None
      case Read(item, next) => r == Some(item) && reader.pos == next
    decreases |reader.stream| - reader.pos, 0
  {
    hide ReadVarIntAt, ReadVarBytesAt, FromLESigned, DeserializedItems, DeserializedEntries;
    var stype := reader.SafeReadBytes(1);
    if stype.None? {
      return None;
    }
    var tag := stype.value[0];
    assert tag == reader.stream[old(reader.pos)];
    if tag == BYTE_ARRAY {
      var b := reader.ReadVarBytes();
      r := if b.None? then None else Some(ByteArray(b.value));
    } else if tag == BOOLEAN {
      var b := reader.SafeReadBytes(1);
      r := if b.None? then None else Some(Boolean(b.value[0] != 0));
      assert b.Some? ==> b.value[0] == reader.stream[old(reader.pos) + 1];
    } else if tag == INTEGER {
      var b := reader.ReadVarBytes();
      r := if b.None? then None else Some(Integer(FromLESigned(b.value)));
    } else if tag == ARRAY || tag == STRUCT {
      var count := reader.ReadVarInt();
      if count.None? {
        return None;
      }
      var items := DeserializeList(reader, count.value);
      r := if items.None? then None else Some(if tag == ARRAY then Array(items.value) else Struct(items.value));
    } else if tag == MAP {
      var count := reader.ReadVarInt();
      if count.None? {
        return None;
      }
      var entries := DeserializeDict(reader, count.value);
      r := if entries.None? then None else Some(Map(entries.value));
    } else {
      r := None;
    }
  }

  method DeserializeList(reader: BinaryReader, count: nat) returns (r: Option<seq<Item>>)
    requires reader.pos <= |reader.stream|
    modifies reader
    ensures reader.pos <= |reader.stream|
    ensures match DeserializedItems(reader.stream, old(reader.pos), count, [])
      case ReadError => r == None
      case Read(items, next) => r == Some(items) && reader.pos == next
    decreases |reader.stream| - reader.pos, 1
  {
    hide Deserialized;
    var items := [];
    var left := count;
    while left > 0
      invariant old(reader.pos) <= reader.pos <= |reader.stream|
      invariant DeserializedItems(reader.stream, old(reader.pos), count, [])
             == DeserializedItems(reader.stream, reader.pos, left, items)
    {
      left := left - 1;
      var item := DeserializeStackItem(reader);
      if item.None? {
        return None;
      }
      items := items + [item.value];
    }
    return Some(items);
  }

  method DeserializeDict(reader: BinaryReader, count: nat) returns (r: Option<seq<Entry>>)
    requires reader.pos <= |reader.stream|
    modifies reader
    ensures reader.pos <= |reader.stream|
    ensures match DeserializedEntries(reader.stream, old(reader.pos), count, [])
      case ReadError => r == None
      case Read(entries, next) => r == Some(entries) && reader.pos == next
    decreases |reader.stream| - reader.pos, 1
  {
    hide Deserialized, SetItem;
    var entries := [];
    var left := count;
    while left > 0
      invariant old(reader.pos) <= reader.pos <= |reader.stream|
      invariant DeserializedEntries(reader.stream, old(reader.pos), count, [])
             == DeserializedEntries(reader.stream, reader.pos, left, entries)
    {
      left := left - 1;
      var key := DeserializeStackItem(reader);
      if key.None? {
        return None;
      }
      var value := DeserializeStackItem(reader);
      if value.None? {
        return None;
      }
      entries := SetItem(entries, key.value, value.value);
    }
    return Some(entries);
  }
}
