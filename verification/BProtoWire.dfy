/**
 * BProto messages as bytes: typed entries, each with the id of a field, and schemas saying which fields a
 * message has and how often.
 */
module BProtoWire {
  import opened Bytes
  import opened Options

  const U32: nat := 0x1_0000_0000

  function Pow256(n: nat): (r: nat)
    ensures r > 0
  {
    if n == 0 then 1 else 256 * Pow256(n - 1)
  }

  /** The n bytes of v, least significant first. */
  function Le(v: nat, n: nat): (r: seq<Byte>)
    ensures |r| == n
  {
    if n == 0 then [] else [v % 256] + Le(v / 256, n - 1)
  }

  function FromLe(s: seq<Byte>): (v: nat)
    ensures v < Pow256(|s|)
  {
    if s == [] then 0 else s[0] + 256 * FromLe(s[1..])
  }

  lemma {:induction false} LeThenBack(v: nat, n: nat)
    requires v < Pow256(n)
    ensures FromLe(Le(v, n)) == v
  {
    if n > 0 {
      LeThenBack(v / 256, n - 1);
      assert Le(v, n)[1..] == Le(v / 256, n - 1);
    }
  }

  lemma {:induction false} BackThenLe(s: seq<Byte>)
    ensures Le(FromLe(s), |s|) == s
  {
    if s != [] {
      BackThenLe(s[1..]);
      var v := FromLe(s);
      assert v % 256 == s[0] && v / 256 == FromLe(s[1..]);
    }
  }

  /** Types as the schema declares them, and values as entries carry them. */
  datatype Kind = UInt(size: nat) | Data | ConstData(len: nat)
  datatype Cardinality = Optional | Required | Repeated | RequiredRepeated
  datatype Field = Field(id: nat, kind: Kind, card: Cardinality)
  datatype Value = Number(size: nat, v: nat) | Blob(fixed: bool, data: seq<Byte>)
  datatype Item = Item(id: nat, value: Value)

  predicate SizeOk(size: nat) { size == 1 || size == 2 || size == 4 || size == 8 }

  predicate Sound(it: Item) {
    && it.id < U16
    && match it.value
       case Number(size, v) => SizeOk(size) && v < Pow256(size)
       case Blob(_, data) => |data| < U32
  }

  function TypeOf(value: Value): nat {
    match value
    case Number(size, _) => if size == 1 then 1 else if size == 2 then 2 else if size == 4 then 3 else 4
    case Blob(fixed, _) => if fixed then 6 else 5
  }

  function SizeOfType(t: nat): nat
    requires 1 <= t <= 4
  {
    if t == 1 then 1 else if t == 2 then 2 else if t == 3 then 4 else 8
  }

  function Body(value: Value): seq<Byte> {
    match value
    case Number(size, v) => Le(v, size)
    case Blob(_, data) => Le(|data|, 4) + data
  }

  function EncodeItem(it: Item): (r: seq<Byte>)
    ensures |r| >= 4
  {
    Le(it.id, 2) + Le(TypeOf(it.value), 2) + Body(it.value)
  }

  function Encode(items: seq<Item>): seq<Byte> {
    if items == [] then [] else Encode(items[..|items| - 1]) + EncodeItem(items[|items| - 1])
  }

  /** The entry at the front of s and its length, if a whole entry of a known type is there. */
  function ReadItem(s: seq<Byte>): (r: Option<(Item, nat)>)
    ensures r.Some? ==> 4 <= r.value.1 <= |s|
  {
    if |s| < 4 then None
    else
      var id, t := FromLe(s[..2]), FromLe(s[2..4]);
      if 1 <= t <= 4 then
        var size := SizeOfType(t);
        if |s| - 4 < size then None else Some((Item(id, Number(size, FromLe(s[4..4 + size]))), 4 + size))
      else if t == 5 || t == 6 then
        if |s| - 4 < 4 then None
        else
          var len := FromLe(s[4..8]);
          if |s| - 8 < len then None else Some((Item(id, Blob(t == 6, s[8..8 + len])), 8 + len))
      else None
  }

  function Decode(s: seq<Byte>): Option<seq<Item>>
    decreases |s|
  {
    if s == [] then Some([])
    else
      var r := ReadItem(s);
      if r.None? then None
      else
        var rest := Decode(s[r.value.1..]);
        if rest.None? then None else Some([r.value.0] + rest.value)
  }

  ghost predicate AllSound(items: seq<Item>) {
    forall k :: 0 <= k < |items| ==> Sound(items[k])
  }

  lemma Pows()
    ensures Pow256(1) == 256 && Pow256(2) == U16 && Pow256(4) == U32
  {
    assert Pow256(3) == 0x100_0000;
  }

  lemma ReadOfEncoded(it: Item, rest: seq<Byte>)
    requires Sound(it)
    ensures ReadItem(EncodeItem(it) + rest) == Some((it, |EncodeItem(it)|))
  {
    Pows();
    var t := TypeOf(it.value);
    LeThenBack(it.id, 2);
    LeThenBack(t, 2);
    hide Pow256, Le, FromLe;
    match it.value
    case Number(size, v) =>
      LeThenBack(v, size);
      Cut(Le(it.id, 2), Le(t, 2), Le(v, size), [], rest);
    case Blob(fixed, data) =>
      LeThenBack(|data|, 4);
      Cut(Le(it.id, 2), Le(t, 2), Le(|data|, 4), data, rest);
  }

  lemma Cut(a: seq<Byte>, b: seq<Byte>, c: seq<Byte>, d: seq<Byte>, rest: seq<Byte>)
    ensures var s := a + b + (c + d) + rest;
            var (i, j, k) := (|a|, |a| + |b|, |a| + |b| + |c|);
            s[..i] == a && s[i..j] == b && s[j..k] == c && s[k..k + |d|] == d
    ensures c + [] == c
  {
  }

  lemma EncodedOfRead(s: seq<Byte>)
    requires ReadItem(s).Some?
    ensures var (it, n) := ReadItem(s).value; Sound(it) && s[..n] == EncodeItem(it)
  {
    Pows();
    var (it, n) := ReadItem(s).value;
    BackThenLe(s[..2]);
    BackThenLe(s[2..4]);
    assert s[..n] == s[..2] + s[2..4] + s[4..n];
    match it.value
    case Number(size, v) =>
      BackThenLe(s[4..4 + size]);
    case Blob(fixed, data) =>
      BackThenLe(s[4..8]);
      assert s[4..n] == s[4..8] + s[8..n];
  }

  lemma {:induction false} EncodeSplit(a: seq<Item>, b: seq<Item>)
    ensures Encode(a + b) == Encode(a) + Encode(b)
    decreases |b|
  {
    hide EncodeItem;
    if b == [] {
      assert a + b == a;
    } else {
      var all, last := a + b, |b| - 1;
      assert all[..|all| - 1] == a + b[..last];
      EncodeSplit(a, b[..last]);
      Regroup(Encode(a), Encode(b[..last]), EncodeItem(b[last]));
    }
  }

  lemma Regroup(a: seq<Byte>, b: seq<Byte>, c: seq<Byte>)
    ensures (a + b) + c == a + (b + c)
  {
  }

  lemma EncodeFront(it: Item, items: seq<Item>)
    ensures Encode([it] + items) == EncodeItem(it) + Encode(items)
  {
    hide EncodeItem;
    EncodeSplit([it], items);
    assert [it][..0] == [];
    assert Encode([it]) == [] + EncodeItem(it);
  }

  lemma {:induction false} DecodeOfEncoded(items: seq<Item>)
    requires AllSound(items)
    ensures Decode(Encode(items)) == Some(items)
    decreases |items|
  {
    hide EncodeItem, ReadItem, Sound;
    if items != [] {
      var tail := Encode(items[1..]);
      assert items == [items[0]] + items[1..];
      EncodeFront(items[0], items[1..]);
      ReadOfEncoded(items[0], tail);
      assert (EncodeItem(items[0]) + tail)[|EncodeItem(items[0])|..] == tail;
      DecodeOfEncoded(items[1..]);
    }
  }

  lemma {:induction false} EncodedOfDecode(s: seq<Byte>)
    requires Decode(s).Some?
    ensures AllSound(Decode(s).value) && Encode(Decode(s).value) == s
    decreases |s|
  {
    hide EncodeItem, ReadItem, Sound;
    if s != [] {
      var (it, n) := ReadItem(s).value;
      EncodedOfRead(s);
      EncodedOfDecode(s[n..]);
      EncodeFront(it, Decode(s[n..]).value);
      assert s == s[..n] + s[n..];
    }
  }

  /**
   * Reading gives a list of entries exactly when the bytes are their encoding: nothing else is accepted, and
   * nothing is read two ways.
   */
  lemma DecodeInvertsEncode(s: seq<Byte>, items: seq<Item>)
    ensures Decode(s) == Some(items) <==> AllSound(items) && s == Encode(items)
  {
    hide Decode, Encode, AllSound;
    if Decode(s).Some? { EncodedOfDecode(s); }
    if AllSound(items) { DecodeOfEncoded(items); }
  }

  // ----- schemas -----

  predicate KindOk(kind: Kind, value: Value) {
    match kind
    case UInt(size) => value.Number? && value.size == size
    case Data => value.Blob? && !value.fixed
    case ConstData(len) => value.Blob? && value.fixed && |value.data| == len
  }

  predicate SchemaOk(schema: seq<Field>) {
    && (forall f, g :: 0 <= f < g < |schema| ==> schema[f].id != schema[g].id)
    && (forall f :: 0 <= f < |schema| ==> schema[f].id < U16 && (schema[f].kind.UInt? ==> SizeOk(schema[f].kind.size))
                                          && (schema[f].kind.ConstData? ==> schema[f].kind.len < U32))
  }

  /** The field an entry belongs to. */
  function Lookup(schema: seq<Field>, it: Item): (r: Option<nat>)
    ensures r.Some? ==> r.value < |schema| && schema[r.value].id == it.id && KindOk(schema[r.value].kind, it.value)
    ensures r.None? ==> forall f :: 0 <= f < |schema| ==> schema[f].id != it.id || !KindOk(schema[f].kind, it.value)
  {
    if schema == [] then None
    else
      var f := |schema| - 1;
      if schema[f].id == it.id && KindOk(schema[f].kind, it.value) then Some(f) else Lookup(schema[..f], it)
  }

  function Count(items: seq<Item>, id: nat): nat {
    if items == [] then 0
    else Count(items[..|items| - 1], id) + if items[|items| - 1].id == id then 1 else 0
  }

  predicate CardOk(card: Cardinality, n: nat) {
    match card
    case Optional => n <= 1
    case Required => n == 1
    case Repeated => true
    case RequiredRepeated => n >= 1
  }

  predicate Known(schema: seq<Field>, items: seq<Item>) {
    forall k :: 0 <= k < |items| ==> Lookup(schema, items[k]).Some?
  }

  predicate CardsOk(schema: seq<Field>, items: seq<Item>) {
    forall f :: 0 <= f < |schema| ==> CardOk(schema[f].card, Count(items, schema[f].id))
  }

  predicate Conforms(schema: seq<Field>, items: seq<Item>) {
    Known(schema, items) && CardsOk(schema, items)
  }

  // ----- the values of one field -----

  /** The values the entries with this id carry, in order. */
  function Values(items: seq<Item>, id: nat): seq<Value> {
    if items == [] then []
    else if items[0].id == id then [items[0].value] + Values(items[1..], id)
    else Values(items[1..], id)
  }

  /** The index of the first entry with this id, and the one just after the last. */
  function First(items: seq<Item>, id: nat): (k: nat)
    ensures k <= |items| && (forall j :: 0 <= j < k ==> items[j].id != id) && (k < |items| ==> items[k].id == id)
  {
    if items == [] || items[0].id == id then 0 else First(items[1..], id) + 1
  }

  function End(items: seq<Item>, id: nat): (k: nat)
    ensures k <= |items| && (forall j :: k <= j < |items| ==> items[j].id != id) && (k > 0 ==> items[k - 1].id == id)
  {
    if items == [] then 0
    else if items[|items| - 1].id == id then |items|
    else End(items[..|items| - 1], id)
  }

  function Offset(items: seq<Item>, k: nat): nat
    requires k <= |items|
  {
    |Encode(items[..k])|
  }

  lemma OffsetNext(items: seq<Item>, k: nat)
    requires k < |items|
    ensures Offset(items, k + 1) == Offset(items, k) + |EncodeItem(items[k])|
  {
    assert items[..k + 1][..k] == items[..k];
  }

  lemma {:induction false} OffsetGrows(items: seq<Item>, j: nat, k: nat)
    requires j <= k <= |items|
    ensures Offset(items, j) <= Offset(items, k)
    ensures j < k ==> Offset(items, j) + 4 <= Offset(items, k)
    decreases k - j
  {
    hide Encode, EncodeItem, Offset;
    if j < k {
      OffsetNext(items, k - 1);
      OffsetGrows(items, j, k - 1);
    }
  }

  /** At the boundary before entry k stands that entry. */
  lemma EntryAt(items: seq<Item>, k: nat)
    requires AllSound(items) && k < |items|
    ensures Offset(items, k) <= |Encode(items)|
    ensures ReadItem(Encode(items)[Offset(items, k)..]) == Some((items[k], |EncodeItem(items[k])|))
  {
    hide EncodeItem, ReadItem, Sound;
    var rest := items[k + 1..];
    assert items == items[..k] + ([items[k]] + rest);
    EncodeSplit(items[..k], [items[k]] + rest);
    EncodeFront(items[k], rest);
    var tail := EncodeItem(items[k]) + Encode(rest);
    assert (Encode(items[..k]) + tail)[Offset(items, k)..] == tail;
    ReadOfEncoded(items[k], Encode(rest));
  }

  // ----- what conforming and the values of a field mean -----

  /** The value fits the field: a number of its size, data, or data of exactly its length. */
  ghost predicate Fits(field: Field, it: Item) {
    field.id == it.id &&
      match field.kind
      case UInt(size) => exists v :: it.value == Number(size, v)
      case Data => exists data :: it.value == Blob(false, data)
      case ConstData(len) => exists data :: it.value == Blob(true, data) && |data| == len
  }

  lemma {:induction false} CountIs(items: seq<Item>, id: nat)
    ensures Count(items, id) == |set k | 0 <= k < |items| && items[k].id == id|
  {
    var at := set k | 0 <= k < |items| && items[k].id == id;
    if items != [] {
      var n := |items| - 1;
      CountIs(items[..n], id);
      var before := set k | 0 <= k < n && items[..n][k].id == id;
      assert at == before + if items[n].id == id then {n} else {};
    }
  }

  /**
   * A message conforms to its schema exactly if each entry fits a field of it, an optional field has no two
   * entries, a required one has one, and one that is required and repeated has at least one.
   */
  lemma ConformsMeans(schema: seq<Field>, items: seq<Item>)
    ensures Conforms(schema, items) <==>
              && (forall k :: 0 <= k < |items| ==> exists f :: 0 <= f < |schema| && Fits(schema[f], items[k]))
              && (forall f :: 0 <= f < |schema| ==>
                    var (card, at) := (schema[f].card, set k | 0 <= k < |items| && items[k].id == schema[f].id);
                    && (card.Required? || card.Optional? ==> |at| <= 1)
                    && (card.Required? || card.RequiredRepeated? ==> at != {}))
  {
    forall k | 0 <= k < |items|
      ensures Lookup(schema, items[k]).Some? <==> exists f :: 0 <= f < |schema| && Fits(schema[f], items[k])
    {
      FoundIffFits(schema, items[k]);
    }
    forall f | 0 <= f < |schema|
      ensures var (card, at) := (schema[f].card, set k | 0 <= k < |items| && items[k].id == schema[f].id);
              CardOk(card, Count(items, schema[f].id)) <==>
                && (card.Required? || card.Optional? ==> |at| <= 1)
                && (card.Required? || card.RequiredRepeated? ==> at != {})
    {
      CountIs(items, schema[f].id);
    }
    hide Lookup, Fits, Count, CardOk;
  }

  lemma FoundIffFits(schema: seq<Field>, it: Item)
    ensures Lookup(schema, it).Some? <==> exists f :: 0 <= f < |schema| && Fits(schema[f], it)
  {
    forall f | 0 <= f < |schema|
      ensures Fits(schema[f], it) <==> schema[f].id == it.id && KindOk(schema[f].kind, it.value)
    {
      match it.value
      case Number(size, v) =>
      case Blob(fixed, data) =>
    }
    hide KindOk, Fits;
    if Lookup(schema, it).Some? { assert Fits(schema[Lookup(schema, it).value], it); }
  }

  lemma {:induction false} ValuesAppend(a: seq<Item>, b: seq<Item>, id: nat)
    ensures Values(a + b, id) == Values(a, id) + Values(b, id)
  {
    if a == [] {
      assert a + b == b;
    } else {
      assert (a + b)[1..] == a[1..] + b;
      ValuesAppend(a[1..], b, id);
    }
  }

  /** The values of a field are those of the entries with its id and no others, in the order of the message. */
  lemma ValuesAre(before: seq<Item>, it: Item, after: seq<Item>, id: nat)
    ensures Values(before + [it] + after, id)
            == Values(before, id) + (if it.id == id then [it.value] else []) + Values(after, id)
  {
    ValuesAppend(before + [it], after, id);
    ValuesAppend(before, [it], id);
    assert [it][1..] == [];
  }
}
