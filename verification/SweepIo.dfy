/** The tagged JSON codec of sweep inputs and outputs: decoding undoes encoding. */
module SweepIo {
  import opened Common

  datatype Json =
    | JNull
    | JBool(b: bool)
    | JInt(n: int)
    | JFloat(x: real)
    | JStr(s: string)
    | JArr(items: seq<Json>)
    | JObj(pairs: seq<Member>)

  /** One key of a JSON object. */
  datatype Member = Member(key: string, json: Json)

  datatype Field = Field(name: string, compare: bool)

  /** A dataclass, its fields in declaration order. */
  datatype Class = Class(name: string, fields: seq<Field>, hashable: bool)

  /** What an enum member stands for: a number, or a text as in the luck groups. */
  datatype EnumValue = Number(n: int) | Text(s: string)
  {
    function ToJson(): Json {
      match this
      case Number(n) => JInt(n)
      case Text(s) => JStr(s)
    }
  }

  /** The values of the sweep's object graph. A dict keeps its insertion order. */
  datatype Value =
    | VNone
    | VBool(b: bool)
    | VInt(n: int)
    | VFloat(x: real)
    | VStr(s: string)
    | VEnum(enumClass: string, name: string, value: EnumValue)
    | VData(cls: Class, values: seq<Value>)
    | VTuple(items: seq<Value>)
    | VFrozenSet(members: set<Value>)
    | VList(items: seq<Value>)
    | VDict(pairs: seq<(Value, Value)>)

  /** The enum classes, with the member each value stands for, and the dataclasses the decoder knows. */
  datatype Registry = Registry(enums: map<string, map<EnumValue, string>>, classes: map<string, Class>)

  /** The link to the parent is never written. */
  predicate Hidden(f: Field) {
    !f.compare && f.name == "parent_candidate"
  }

  // ---------------------------------------------------------------------------
  // Encoding
  // ---------------------------------------------------------------------------

  /** How the encoder lists a set: every member once, in some order. */
  type Order = set<Value> -> seq<Value>

  ghost predicate Lists(order: Order) {
    forall s: set<Value> :: Distinct(order(s)) && forall x :: x in order(s) <==> x in s
  }

  ghost function Encode(order: Order, v: Value): Json
    requires Lists(order)
    decreases v
  {
    match v
    case VNone => JNull
    case VBool(b) => JBool(b)
    case VInt(n) => JInt(n)
    case VFloat(x) => JFloat(x)
    case VStr(s) => JStr(s)
    case VEnum(cls, name, value) =>
      JObj([Member("__enum__", JStr(cls)), Member("name", JStr(name)), Member("value", value.ToJson())])
    case VData(cls, values) =>
      var fields := seq(|values|, i requires 0 <= i < |values| =>
        if i < |cls.fields| && Hidden(cls.fields[i]) then JNull else Encode(order, values[i]));
      JObj([Member("__type__", JStr(cls.name)), Member("fields", JObj(Named(cls, fields)))])
    case VTuple(items) =>
      JObj([Member("__tuple__", JArr(seq(|items|, i requires 0 <= i < |items| => Encode(order, items[i]))))])
    case VFrozenSet(members) =>
      var items := order(members);
      JObj([Member("__frozenset__", JArr(seq(|items|, i requires 0 <= i < |items| =>
        assert items[i] in members; Encode(order, items[i]))))])
    case VList(items) => JArr(seq(|items|, i requires 0 <= i < |items| => Encode(order, items[i])))
    case VDict(pairs) =>
      JObj([Member("__dict__", JArr(seq(|pairs|, i requires 0 <= i < |pairs| =>
        JArr([Encode(order, pairs[i].0), Encode(order, pairs[i].1)]))))])
  }

  function Named(cls: Class, fields: seq<Json>): seq<Member> {
    seq(|fields|, i requires 0 <= i < |fields| =>
      Member(if i < |cls.fields| then cls.fields[i].name else "", fields[i]))
  }

  // ---------------------------------------------------------------------------
  // Decoding
  // ---------------------------------------------------------------------------

  /** The position of a key, or the number of pairs when there is none. */
  function Find(pairs: seq<Member>, key: string): (k: nat)
    ensures k <= |pairs| && (k < |pairs| ==> pairs[k].key == key)
    ensures forall i | 0 <= i < k :: pairs[i].key != key
  {
    if pairs == [] || pairs[0].key == key then 0 else 1 + Find(pairs[1..], key)
  }

  predicate Has(pairs: seq<Member>, key: string) {
    Find(pairs, key) < |pairs|
  }

  predicate Hashable(v: Value) {
    match v
    case VList(_) => false
    case VDict(_) => false
    case VData(cls, _) => cls.hashable
    case VTuple(items) => forall i | 0 <= i < |items| :: Hashable(items[i])
    case _ => true
  }

  /** `d[k] = v`: a key that is there already keeps its place. */
  function Put(pairs: seq<(Value, Value)>, k: Value, v: Value): seq<(Value, Value)> {
    if pairs == [] then [(k, v)]
    else if pairs[0].0 == k then [(k, v)] + pairs[1..]
    else [pairs[0]] + Put(pairs[1..], k, v)
  }

  function Decode(reg: Registry, j: Json): Result<Value>
    decreases j, 1
  {
    match j
    case JNull => Ok(VNone)
    case JBool(b) => Ok(VBool(b))
    case JInt(n) => Ok(VInt(n))
    case JFloat(x) => Ok(VFloat(x))
    case JStr(s) => Ok(VStr(s))
    case JArr(items) =>
      (match DecodeAll(reg, items) case Ok(vs) => Ok(VList(vs)) case Raised => Raised)
    case JObj(pairs) =>
      if Has(pairs, "__enum__") then
        DecodeEnum(reg, pairs)
      else if Has(pairs, "__type__") then
        var cls := pairs[Find(pairs, "__type__")].json;
        if !cls.JStr? || cls.s !in reg.classes || !Has(pairs, "fields") then Raised
        else
          var fields := pairs[Find(pairs, "fields")].json;
          if !fields.JObj? || !FieldsMatch(reg.classes[cls.s], fields.pairs) then Raised
          else
            match DecodeValues(reg, fields.pairs)
            case Ok(vs) => Ok(VData(reg.classes[cls.s], vs))
            case Raised => Raised
      else if Has(pairs, "__tuple__") then
        var items := pairs[Find(pairs, "__tuple__")].json;
        if !items.JArr? then Raised
        else (match DecodeAll(reg, items.items) case Ok(vs) => Ok(VTuple(vs)) case Raised => Raised)
      else if Has(pairs, "__frozenset__") then
        var items := pairs[Find(pairs, "__frozenset__")].json;
        if !items.JArr? then Raised
        else
          match DecodeAll(reg, items.items)
          case Ok(vs) => if forall i | 0 <= i < |vs| :: Hashable(vs[i]) then Ok(VFrozenSet(set v | v in vs)) else Raised
          case Raised => Raised
      else if Has(pairs, "__dict__") then
        var entries := pairs[Find(pairs, "__dict__")].json;
        if !entries.JArr? then Raised
        else (match DecodeEntries(reg, entries.items, []) case Ok(ps) => Ok(VDict(ps)) case Raised => Raised)
      else
        match DecodeValues(reg, pairs)
        case Ok(vs) => Ok(VDict(PlainDict(pairs, vs)))
        case Raised => Raised
  }

  /** Enum members are found by value. */
  function DecodeEnum(reg: Registry, pairs: seq<Member>): Result<Value>
    requires Has(pairs, "__enum__")
  {
    var cls := pairs[Find(pairs, "__enum__")].json;
    if !cls.JStr? || cls.s !in reg.enums || !Has(pairs, "value") then Raised
    else
      var json := pairs[Find(pairs, "value")].json;
      if !json.JInt? && !json.JStr? then Raised
      else
        var value := if json.JInt? then Number(json.n) else Text(json.s);
        if value !in reg.enums[cls.s] then Raised else Ok(VEnum(cls.s, reg.enums[cls.s][value], value))
  }

  /** The encoded fields are the class's own. */
  predicate FieldsMatch(cls: Class, pairs: seq<Member>) {
    |pairs| == |cls.fields| && forall i | 0 <= i < |pairs| :: pairs[i].key == cls.fields[i].name
  }

  function DecodeAll(reg: Registry, items: seq<Json>): Result<seq<Value>>
    decreases items, 0
  {
    if items == [] then Ok([])
    else
      match Decode(reg, items[0])
      case Raised => Raised
      case Ok(v) => match DecodeAll(reg, items[1..]) case Raised => Raised case Ok(vs) => Ok([v] + vs)
  }

  function DecodeValues(reg: Registry, pairs: seq<Member>): Result<seq<Value>>
    decreases pairs, 0
  {
    if pairs == [] then Ok([])
    else
      match Decode(reg, pairs[0].json)
      case Raised => Raised
      case Ok(v) => match DecodeValues(reg, pairs[1..]) case Raised => Raised case Ok(vs) => Ok([v] + vs)
  }

  /** Reads key and value pairs into the dict read so far. */
  function DecodeEntries(reg: Registry, entries: seq<Json>, read: seq<(Value, Value)>): Result<seq<(Value, Value)>>
    decreases entries, 0
  {
    if entries == [] then Ok(read)
    else if !entries[0].JArr? || |entries[0].items| != 2 then Raised
    else
      match Decode(reg, entries[0].items[0])
      case Raised => Raised
      case Ok(k) =>
        match Decode(reg, entries[0].items[1])
        case Raised => Raised
        case Ok(v) => if Hashable(k) then DecodeEntries(reg, entries[1..], Put(read, k, v)) else Raised
  }

  function PlainDict(pairs: seq<Member>, vs: seq<Value>): seq<(Value, Value)> {
    seq(|vs|, i requires 0 <= i < |vs| => (VStr(if i < |pairs| then pairs[i].key else ""), vs[i]))
  }

  // ---------------------------------------------------------------------------
  // Round trip
  // ---------------------------------------------------------------------------

  /** The value with every parent link cut. */
  ghost function Cut(v: Value): Value
    decreases v
  {
    match v
    case VData(cls, values) =>
      VData(cls, seq(|values|, i requires 0 <= i < |values| =>
        if i < |cls.fields| && Hidden(cls.fields[i]) then VNone else Cut(values[i])))
    case VTuple(items) => VTuple(seq(|items|, i requires 0 <= i < |items| => Cut(items[i])))
    case VList(items) => VList(seq(|items|, i requires 0 <= i < |items| => Cut(items[i])))
    case VDict(pairs) =>
      VDict(seq(|pairs|, i requires 0 <= i < |pairs| => (pairs[i].0, Cut(pairs[i].1))))
    case _ => v
  }

  /**
   A value the sweep may write: its enums and dataclasses are registered, and what must be hashable is, and holds no
   parent links. A hidden parent may be anything.
   */
  ghost predicate Writable(reg: Registry, v: Value)
    decreases v
  {
    match v
    case VEnum(cls, name, value) => cls in reg.enums && value in reg.enums[cls] && name == reg.enums[cls][value]
    case VData(cls, values) =>
      && cls.name in reg.classes && reg.classes[cls.name] == cls && |values| == |cls.fields|
      && forall i | 0 <= i < |values| :: Hidden(cls.fields[i]) || Writable(reg, values[i])
    case VTuple(items) => forall i | 0 <= i < |items| :: Writable(reg, items[i])
    case VList(items) => forall i | 0 <= i < |items| :: Writable(reg, items[i])
    case VFrozenSet(members) => forall x | x in members :: Writable(reg, x) && Hashable(x) && Cut(x) == x
    case VDict(pairs) =>
      && (forall i | 0 <= i < |pairs| ::
        Writable(reg, pairs[i].0) && Hashable(pairs[i].0) && Cut(pairs[i].0) == pairs[i].0 && Writable(reg, pairs[i].1))
      && DistinctKeys(pairs)
    case _ => true
  }

  lemma {:induction false} DecodeAllOf(reg: Registry, items: seq<Json>, vs: seq<Value>)
    requires |items| == |vs| && forall i | 0 <= i < |items| :: Decode(reg, items[i]) == Ok(vs[i])
    ensures DecodeAll(reg, items) == Ok(vs)
  {
    if items != [] {
      assert forall i | 0 <= i < |items| - 1 :: items[1..][i] == items[i + 1] && vs[1..][i] == vs[i + 1];
      DecodeAllOf(reg, items[1..], vs[1..]);
      assert vs == [vs[0]] + vs[1..];
    }
  }

  lemma {:induction false} DecodeValuesOf(reg: Registry, pairs: seq<Member>, vs: seq<Value>)
    requires |pairs| == |vs| && forall i | 0 <= i < |pairs| :: Decode(reg, pairs[i].json) == Ok(vs[i])
    ensures DecodeValues(reg, pairs) == Ok(vs)
  {
    if pairs != [] {
      assert forall i | 0 <= i < |pairs| - 1 :: pairs[1..][i] == pairs[i + 1] && vs[1..][i] == vs[i + 1];
      DecodeValuesOf(reg, pairs[1..], vs[1..]);
      assert vs == [vs[0]] + vs[1..];
    }
  }

  lemma {:induction false} PutNew(pairs: seq<(Value, Value)>, k: Value, v: Value)
    requires forall i | 0 <= i < |pairs| :: pairs[i].0 != k
    ensures Put(pairs, k, v) == pairs + [(k, v)]
  {
    if pairs != [] {
      PutNew(pairs[1..], k, v);
    }
  }

  /** The entry is read as the key and value `p`. */
  predicate ReadsAs(reg: Registry, entry: Json, p: (Value, Value)) {
    && entry.JArr? && |entry.items| == 2 && Hashable(p.0)
    && Decode(reg, entry.items[0]) == Ok(p.0) && Decode(reg, entry.items[1]) == Ok(p.1)
  }

  predicate DistinctKeys(ps: seq<(Value, Value)>) {
    forall i, j | 0 <= i < j < |ps| :: ps[i].0 != ps[j].0
  }

  /** Entries with different keys are all kept, in order. */
  lemma {:induction false} DecodeEntriesOf(
      reg: Registry, entries: seq<Json>, read: seq<(Value, Value)>, rest: seq<(Value, Value)>)
    requires |entries| == |rest| && DistinctKeys(read + rest)
    requires forall i | 0 <= i < |rest| :: ReadsAs(reg, entries[i], rest[i])
    ensures DecodeEntries(reg, entries, read) == Ok(read + rest)
    decreases |rest|
  {
    if rest == [] {
      assert read + rest == read;
    } else {
      var (k, v) := rest[0];
      assert ReadsAs(reg, entries[0], rest[0]);
      forall i | 0 <= i < |read| ensures read[i].0 != k {
        assert (read + rest)[i] == read[i] && (read + rest)[|read|] == rest[0];
      }
      PutNew(read, k, v);
      assert read + [(k, v)] + rest[1..] == read + rest;
      forall i | 0 <= i < |rest| - 1 ensures ReadsAs(reg, entries[1..][i], rest[1..][i]) {
        assert ReadsAs(reg, entries[i + 1], rest[i + 1]);
      }
      DecodeEntriesOf(reg, entries[1..], read + [(k, v)], rest[1..]);
    }
  }

  /** One tag, and what stands under it. */
  lemma FindOnly(key: string, j: Json)
    ensures Find([Member(key, j)], key) == 0
    ensures forall other :: other != key ==> !Has([Member(key, j)], other)
  {
    assert [Member(key, j)][1..] == [];
  }

  lemma DecodeTuple(reg: Registry, items: seq<Json>, vs: seq<Value>)
    requires |items| == |vs| && forall i | 0 <= i < |items| :: Decode(reg, items[i]) == Ok(vs[i])
    ensures Decode(reg, JObj([Member("__tuple__", JArr(items))])) == Ok(VTuple(vs))
  {
    FindOnly("__tuple__", JArr(items));
    DecodeAllOf(reg, items, vs);
  }

  lemma DecodeFrozenSet(reg: Registry, items: seq<Json>, vs: seq<Value>)
    requires |items| == |vs| && forall i | 0 <= i < |items| :: Decode(reg, items[i]) == Ok(vs[i]) && Hashable(vs[i])
    ensures Decode(reg, JObj([Member("__frozenset__", JArr(items))])) == Ok(VFrozenSet(set v | v in vs))
  {
    FindOnly("__frozenset__", JArr(items));
    DecodeAllOf(reg, items, vs);
  }

  lemma DecodeDict(reg: Registry, entries: seq<Json>, ps: seq<(Value, Value)>)
    requires |entries| == |ps| && DistinctKeys(ps) && forall i | 0 <= i < |ps| :: ReadsAs(reg, entries[i], ps[i])
    ensures Decode(reg, JObj([Member("__dict__", JArr(entries))])) == Ok(VDict(ps))
  {
    FindOnly("__dict__", JArr(entries));
    assert [] + ps == ps;
    DecodeEntriesOf(reg, entries, [], ps);
  }

  /** Decoding undoes encoding, for every writable value: the value comes back with its parent links cut. */
  lemma {:induction false} RoundTrip(reg: Registry, order: Order, v: Value)
    requires Lists(order) && Writable(reg, v)
    ensures Decode(reg, Encode(order, v)) == Ok(Cut(v))
    decreases v
  {
    match v {
      case VEnum(cls, name, value) => RoundTripEnum(reg, order, v);
      case VData(cls, values) =>
        forall i | 0 <= i < |values| && !Hidden(cls.fields[i])
          ensures Decode(reg, Encode(order, values[i])) == Ok(Cut(values[i])) {
          RoundTrip(reg, order, values[i]);
        }
        RoundTripData(reg, order, v);
      case VTuple(items) =>
        forall i | 0 <= i < |items| ensures Decode(reg, Encode(order, items[i])) == Ok(Cut(items[i])) {
          RoundTrip(reg, order, items[i]);
        }
        var encoded := seq(|items|, i requires 0 <= i < |items| => Encode(order, items[i]));
        DecodeTuple(reg, encoded, Cut(v).items);
      case VFrozenSet(members) =>
        forall x | x in members ensures Decode(reg, Encode(order, x)) == Ok(x) {
          RoundTrip(reg, order, x);
        }
        RoundTripFrozenSet(reg, order, v);
      case VList(items) =>
        forall i | 0 <= i < |items| ensures Decode(reg, Encode(order, items[i])) == Ok(Cut(items[i])) {
          RoundTrip(reg, order, items[i]);
        }
        DecodeAllOf(reg, Encode(order, v).items, Cut(v).items);
      case VDict(pairs) =>
        forall i | 0 <= i < |pairs| ensures PairReturns(reg, order, pairs[i]) {
          var (key, value) := pairs[i];
          assert pairs[i] == (key, value);
          RoundTrip(reg, order, key);
          RoundTrip(reg, order, value);
        }
        RoundTripDict(reg, order, pairs);
      case _ =>
    }
  }

  lemma RoundTripEnum(reg: Registry, order: Order, v: Value)
    requires Lists(order) && Writable(reg, v) && v.VEnum?
    ensures Decode(reg, Encode(order, v)) == Ok(v)
  {
    var pairs := Encode(order, v).pairs;
    assert pairs[0].key == "__enum__" && pairs[1].key == "name" && pairs[2].key == "value";
    assert Find(pairs, "__enum__") == 0;
    assert Find(pairs, "value") == 2;
  }

  lemma RoundTripData(reg: Registry, order: Order, v: Value)
    requires Lists(order) && Writable(reg, v) && v.VData?
    requires forall i | 0 <= i < |v.values| && !Hidden(v.cls.fields[i]) ::
      Decode(reg, Encode(order, v.values[i])) == Ok(Cut(v.values[i]))
    ensures Decode(reg, Encode(order, v)) == Ok(Cut(v))
  {
    var pairs := Encode(order, v).pairs;
    assert pairs[0].key == "__type__" && pairs[1].key == "fields";
    assert !Has(pairs, "__enum__") && Find(pairs, "__type__") == 0 && Find(pairs, "fields") == 1;
    var fields := pairs[1].json.pairs;
    DecodeValuesOf(reg, fields, Cut(v).values);
  }

  lemma RoundTripFrozenSet(reg: Registry, order: Order, v: Value)
    requires Lists(order) && Writable(reg, v) && v.VFrozenSet?
    requires forall x | x in v.members :: Decode(reg, Encode(order, x)) == Ok(x)
    ensures Decode(reg, Encode(order, v)) == Ok(v)
  {
    var items := order(v.members);
    var encoded := Encode(order, v).pairs[0].json.items;
    assert forall i | 0 <= i < |items| :: items[i] in v.members;
    DecodeFrozenSet(reg, encoded, items);
    assert (set x | x in items) == v.members;
  }

  /** The key comes back as it was and the value with its parent links cut. */
  ghost predicate PairReturns(reg: Registry, order: Order, p: (Value, Value))
    requires Lists(order)
  {
    Hashable(p.0) && Decode(reg, Encode(order, p.0)) == Ok(p.0) && Decode(reg, Encode(order, p.1)) == Ok(Cut(p.1))
  }

  lemma PairReads(reg: Registry, order: Order, p: (Value, Value), entry: Json, q: (Value, Value))
    requires Lists(order) && PairReturns(reg, order, p)
    requires entry == JArr([Encode(order, p.0), Encode(order, p.1)]) && q == (p.0, Cut(p.1))
    ensures ReadsAs(reg, entry, q)
  {
  }

  lemma RoundTripDict(reg: Registry, order: Order, pairs: seq<(Value, Value)>)
    requires Lists(order) && DistinctKeys(pairs)
    requires forall i | 0 <= i < |pairs| :: PairReturns(reg, order, pairs[i])
    ensures Decode(reg, Encode(order, VDict(pairs))) == Ok(Cut(VDict(pairs)))
  {
    var entries := Encode(order, VDict(pairs)).pairs[0].json.items;
    var ps := Cut(VDict(pairs)).pairs;
    forall i | 0 <= i < |ps| ensures ReadsAs(reg, entries[i], ps[i]) {
      assert PairReturns(reg, order, pairs[i]);
      PairReads(reg, order, pairs[i], entries[i], ps[i]);
    }
    DecodeDict(reg, entries, ps);
  }

  /** Values that hold no parent link come back as they were, so no two of them are written alike. */
  lemma EncodingTellsApart(reg: Registry, order: Order, a: Value, b: Value)
    requires Lists(order) && Writable(reg, a) && Writable(reg, b) && Cut(a) == a && Cut(b) == b
    requires Encode(order, a) == Encode(order, b)
    ensures a == b
  {
    RoundTrip(reg, order, a);
    RoundTrip(reg, order, b);
  }

  /** No dataclass in the value has a field that is left out of comparisons and links to a parent. */
  ghost predicate HasNoParent(v: Value)
    decreases v
  {
    match v
    case VData(cls, values) =>
      && (forall f | f in cls.fields :: f.compare || f.name != "parent_candidate")
      && forall i | 0 <= i < |values| :: HasNoParent(values[i])
    case VTuple(items) => forall i | 0 <= i < |items| :: HasNoParent(items[i])
    case VList(items) => forall i | 0 <= i < |items| :: HasNoParent(items[i])
    case VDict(pairs) => forall i | 0 <= i < |pairs| :: HasNoParent(pairs[i].1)
    case _ => true
  }

  /** Only links to parents are cut. */
  lemma {:induction false} NothingElseIsCut(v: Value)
    requires HasNoParent(v)
    ensures Cut(v) == v
    decreases v
  {
    match v {
      case VData(cls, values) =>
        forall i | 0 <= i < |values| ensures Cut(v).values[i] == values[i] {
          NothingElseIsCut(values[i]);
          assert i < |cls.fields| ==> cls.fields[i] in cls.fields;
        }
        assert Cut(v).values == values;
      case VTuple(items) =>
        forall i | 0 <= i < |items| ensures Cut(items[i]) == items[i] { NothingElseIsCut(items[i]); }
        assert Cut(v).items == items;
      case VList(items) =>
        forall i | 0 <= i < |items| ensures Cut(items[i]) == items[i] { NothingElseIsCut(items[i]); }
        assert Cut(v).items == items;
      case VDict(pairs) =>
        forall i | 0 <= i < |pairs| ensures Cut(v).pairs[i] == pairs[i] {
          assert pairs[i] == (pairs[i].0, pairs[i].1);
          NothingElseIsCut(pairs[i].1);
        }
        assert Cut(v).pairs == pairs;
      case _ =>
    }
  }

  /** A value without links to parents comes back exactly. */
  lemma RoundTripIsExact(reg: Registry, order: Order, v: Value)
    requires Lists(order) && Writable(reg, v) && HasNoParent(v)
    ensures Decode(reg, Encode(order, v)) == Ok(v)
  {
    RoundTrip(reg, order, v);
    NothingElseIsCut(v);
  }

  lemma TagsAreWritable(reg: Registry, x: int, y: int)
    ensures var v := VDict([(VStr("__enum__"), VInt(x)), (VStr("__type__"), VInt(y))]);
            Writable(reg, v) && Cut(v) == v
  {
    var v := VDict([(VStr("__enum__"), VInt(x)), (VStr("__type__"), VInt(y))]);
    assert "__enum__"[2] == 'e' && "__type__"[2] == 't';
    assert v.pairs[0].0 != v.pairs[1].0;
    forall i | 0 <= i < |v.pairs|
      ensures Writable(reg, v.pairs[i].0) && Hashable(v.pairs[i].0) && Cut(v.pairs[i].0) == v.pairs[i].0
      ensures Writable(reg, v.pairs[i].1) && Cut(v.pairs[i].1) == v.pairs[i].1
    {
    }
    forall i | 0 <= i < |v.pairs| ensures Cut(v).pairs[i] == v.pairs[i] {
    }
    assert Cut(v).pairs == v.pairs;
  }

  /** A dict whose own keys are the codec's tags comes back as that dict. */
  lemma TagsAsKeysRoundTrip(reg: Registry, order: Order, x: int, y: int)
    requires Lists(order)
    ensures var v := VDict([(VStr("__enum__"), VInt(x)), (VStr("__type__"), VInt(y))]);
            Decode(reg, Encode(order, v)) == Ok(v)
  {
    TagsAreWritable(reg, x, y);
    RoundTrip(reg, order, VDict([(VStr("__enum__"), VInt(x)), (VStr("__type__"), VInt(y))]));
  }

  // ---------------------------------------------------------------------------
  // What decoding accepts
  // ---------------------------------------------------------------------------

  /** A value made of registered enum members and dataclasses, with hashable set members and keys, no list or dict. */
  ghost predicate Registered(reg: Registry, v: Value)
    decreases v
  {
    match v
    case VEnum(cls, name, value) => cls in reg.enums && value in reg.enums[cls] && reg.enums[cls][value] == name
    case VData(cls, values) => cls in reg.classes.Values && |values| == |cls.fields| && AllRegistered(reg, values)
    case VTuple(items) => AllRegistered(reg, items)
    case VList(items) => AllRegistered(reg, items)
    case VFrozenSet(members) => forall x | x in members :: Registered(reg, x) && Hashable(x) && !Changeable(x)
    case VDict(pairs) => forall i | 0 <= i < |pairs| :: RegisteredPair(reg, pairs[i])
    case _ => true
  }

  predicate Changeable(v: Value) {
    v.VList? || v.VDict?
  }

  ghost predicate AllRegistered(reg: Registry, values: seq<Value>)
    decreases values, 0
  {
    forall i | 0 <= i < |values| :: Registered(reg, values[i])
  }

  ghost predicate RegisteredPair(reg: Registry, p: (Value, Value))
    decreases p, 0
  {
    Registered(reg, p.0) && Hashable(p.0) && !Changeable(p.0) && Registered(reg, p.1)
  }

  /** Whatever decodes is made of registered classes and members: a name, value or field that is not raises. */
  lemma {:induction false} DecodedIsRegistered(reg: Registry, j: Json)
    requires Decode(reg, j).Ok?
    ensures Registered(reg, Decode(reg, j).value)
    decreases j, 1
  {
    match j {
      case JArr(items) => AllAreRegistered(reg, items);
      case JObj(pairs) =>
        if Has(pairs, "__enum__") {
        } else if Has(pairs, "__type__") {
          var fields := pairs[Find(pairs, "fields")].json;
          ValuesAreRegistered(reg, fields.pairs);
        } else if Has(pairs, "__tuple__") {
          AllAreRegistered(reg, pairs[Find(pairs, "__tuple__")].json.items);
        } else if Has(pairs, "__frozenset__") {
          AllAreRegistered(reg, pairs[Find(pairs, "__frozenset__")].json.items);
        } else if Has(pairs, "__dict__") {
          EntriesAreRegistered(reg, pairs[Find(pairs, "__dict__")].json.items, []);
        } else {
          ValuesAreRegistered(reg, pairs);
        }
      case _ =>
    }
  }

  lemma {:induction false} AllAreRegistered(reg: Registry, items: seq<Json>)
    requires DecodeAll(reg, items).Ok?
    ensures AllRegistered(reg, DecodeAll(reg, items).value) && |DecodeAll(reg, items).value| == |items|
    decreases items, 0
  {
    if items != [] {
      DecodedIsRegistered(reg, items[0]);
      AllAreRegistered(reg, items[1..]);
    }
  }

  lemma {:induction false} ValuesAreRegistered(reg: Registry, pairs: seq<Member>)
    requires DecodeValues(reg, pairs).Ok?
    ensures AllRegistered(reg, DecodeValues(reg, pairs).value) && |DecodeValues(reg, pairs).value| == |pairs|
    decreases pairs, 0
  {
    if pairs != [] {
      DecodedIsRegistered(reg, pairs[0].json);
      ValuesAreRegistered(reg, pairs[1..]);
    }
  }

  lemma {:induction false} PutRegistered(reg: Registry, pairs: seq<(Value, Value)>, k: Value, v: Value)
    requires (forall i | 0 <= i < |pairs| :: RegisteredPair(reg, pairs[i])) && RegisteredPair(reg, (k, v))
    ensures forall i | 0 <= i < |Put(pairs, k, v)| :: RegisteredPair(reg, Put(pairs, k, v)[i])
  {
    if pairs != [] && pairs[0].0 != k {
      PutRegistered(reg, pairs[1..], k, v);
    }
  }

  lemma {:induction false} EntriesAreRegistered(reg: Registry, entries: seq<Json>, read: seq<(Value, Value)>)
    requires DecodeEntries(reg, entries, read).Ok? && forall i | 0 <= i < |read| :: RegisteredPair(reg, read[i])
    ensures var ps := DecodeEntries(reg, entries, read).value;
            forall i | 0 <= i < |ps| :: RegisteredPair(reg, ps[i])
    decreases entries, 0
  {
    if entries != [] {
      DecodedIsRegistered(reg, entries[0].items[0]);
      DecodedIsRegistered(reg, entries[0].items[1]);
      var k, v := Decode(reg, entries[0].items[0]).value, Decode(reg, entries[0].items[1]).value;
      PutRegistered(reg, read, k, v);
      EntriesAreRegistered(reg, entries[1..], Put(read, k, v));
    }
  }
}
