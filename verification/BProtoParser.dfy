/** The message parser and writer the generator emits, for any schema. */
module BProtoCodecs {
  import opened Bytes
  import opened Options
  import opened BProtoWire

  /** The type test of Parser_Get: the length of constant data was checked when the message was accepted. */
  predicate TypeMatches(kind: Kind, value: Value) {
    match kind
    case UInt(size) => value.Number? && value.size == size
    case Data => value.Blob? && !value.fixed
    case ConstData(_) => value.Blob? && value.fixed
  }

  /** Where the entries of one field begin and how far they reach, as Parser_Init records it. */
  ghost predicate Placed(items: seq<Item>, len: nat, id: nat, start: nat, span: nat) {
    if End(items, id) == 0 then start == len && span == 0
    else start == Offset(items, First(items, id)) && start + span == Offset(items, End(items, id))
  }

  /** The reading position stands on the boundary before entry `cur`. */
  ghost predicate OnBoundary(items: seq<Item>, id: nat, start: nat, pos: nat, cur: nat) {
    && cur <= |items|
    && if End(items, id) == 0 then pos == 0
       else First(items, id) <= cur <= End(items, id) && start + pos == Offset(items, cur)
  }

  lemma {:induction false} FirstAppend(items: seq<Item>, it: Item, id: nat)
    ensures First(items + [it], id) == if First(items, id) < |items| then First(items, id)
                                       else if it.id == id then |items| else |items| + 1
  {
    var k, m := First(items + [it], id), First(items, id);
    assert k < |items| ==> (items + [it])[k] == items[k];
    assert m < |items| ==> (items + [it])[m] == items[m];
    assert (items + [it])[|items|] == it;
  }

  lemma PlacedAppend(items: seq<Item>, it: Item, len: nat, id: nat, start: nat, span: nat)
    requires Placed(items, len, id, start, span)
    requires Offset(items + [it], |items|) < len
    ensures start == len <==> End(items, id) == 0
    ensures it.id != id ==> Placed(items + [it], len, id, start, span)
    ensures it.id == id ==>
              var s := if start == len then Offset(items, |items|) else start;
              s <= Offset(items + [it], |items| + 1)
              && Placed(items + [it], len, id, s, Offset(items + [it], |items| + 1) - s)
  {
    hide Encode, EncodeItem, Offset, First, End;
    var all := items + [it];
    var first, end := First(items, id), End(items, id);
    FirstAppend(items, it, id);
    EndAppend(items, it, id);
    PrefixOffset(items, it, first);
    PrefixOffset(items, it, end);
    PrefixOffset(items, it, |items|);
    OffsetGrows(all, first, |items|);
    OffsetGrows(all, |items|, |all|);
    FirstBeforeEnd(items, id);
  }

  lemma EndAppend(items: seq<Item>, it: Item, id: nat)
    ensures End(items + [it], id) == if it.id == id then |items| + 1 else End(items, id)
  {
    assert (items + [it])[..|items|] == items;
  }

  lemma PrefixOffset(items: seq<Item>, it: Item, k: nat)
    requires k <= |items|
    ensures Offset(items + [it], k) == Offset(items, k)
  {
    assert (items + [it])[..k] == items[..k];
  }

  lemma FirstBeforeEnd(items: seq<Item>, id: nat)
    ensures End(items, id) == 0 <==> First(items, id) == |items|
    ensures End(items, id) > 0 ==> First(items, id) < End(items, id)
  {
    var first, end := First(items, id), End(items, id);
    if end > 0 { assert items[end - 1].id == id; }
  }

  lemma {:induction false} CountZero(items: seq<Item>, id: nat)
    ensures Count(items, id) == 0 <==> End(items, id) == 0
  {
    if items != [] { CountZero(items[..|items| - 1], id); }
  }

  lemma ValuesFrom(items: seq<Item>, id: nat, cur: nat)
    requires cur < |items|
    ensures items[cur].id == id ==> Values(items[cur..], id) == [items[cur].value] + Values(items[cur + 1..], id)
    ensures items[cur].id != id ==> Values(items[cur..], id) == Values(items[cur + 1..], id)
  {
    assert items[cur..][1..] == items[cur + 1..];
  }

  lemma {:induction false} NoValues(items: seq<Item>, id: nat, cur: nat)
    requires End(items, id) <= cur <= |items|
    ensures Values(items[cur..], id) == []
    decreases |items| - cur
  {
    if cur < |items| {
      ValuesFrom(items, id, cur);
      NoValues(items, id, cur + 1);
    }
  }

  lemma {:induction false} SomeValue(items: seq<Item>, id: nat, cur: nat)
    requires cur < End(items, id)
    ensures Values(items[cur..], id) != []
    decreases |items| - cur
  {
    ValuesFrom(items, id, cur);
    if items[cur].id != id { SomeValue(items, id, cur + 1); }
  }

  lemma {:induction false} ValuesBeforeFirst(items: seq<Item>, id: nat, cur: nat)
    requires cur <= First(items, id)
    ensures Values(items[cur..], id) == Values(items, id)
  {
    if cur > 0 {
      ValuesBeforeFirst(items, id, cur - 1);
      ValuesFrom(items, id, cur - 1);
    } else {
      assert items[0..] == items;
    }
  }

  /** In a conforming message the entries with a field's id are of its type. */
  lemma TypeIsFields(schema: seq<Field>, items: seq<Item>, f: nat, k: nat)
    requires SchemaOk(schema) && Known(schema, items) && f < |schema| && k < |items|
    ensures items[k].id == schema[f].id ==> TypeMatches(schema[f].kind, items[k].value)
  {
    var g := Lookup(schema, items[k]).value;
    assert items[k].id == schema[f].id ==> g == f;
  }

  ghost predicate PlacedAll(schema: seq<Field>, items: seq<Item>, len: nat, start: seq<nat>, span: seq<nat>,
        counts: seq<nat>) {
    && |start| == |schema| && |span| == |schema| && |counts| == |schema|
    && forall f :: 0 <= f < |schema| ==>
         Placed(items, len, schema[f].id, start[f], span[f]) && counts[f] == Count(items, schema[f].id)
  }

  lemma PlacedNext(schema: seq<Field>, items: seq<Item>, it: Item, len: nat, start: seq<nat>, span: seq<nat>,
        counts: seq<nat>,
                   f: nat, entryPos: nat, after: nat)
    requires SchemaOk(schema) && PlacedAll(schema, items, len, start, span, counts)
    requires Lookup(schema, it) == Some(f)
    requires entryPos == Offset(items, |items|) == Offset(items + [it], |items|) < len
    requires after == Offset(items + [it], |items| + 1)
    ensures f < |schema| == |start| == |span| == |counts|
    ensures var s := if start[f] == len then entryPos else start[f];
            s <= after && PlacedAll(schema, items + [it], len, start[f := s], span[f := after - s],
              counts[f := counts[f] + 1])
  {
    hide Offset, Lookup, Placed, Count, KindOk, CardOk, SchemaOk;
    OneField(schema, it, f);
    PlacedAppend(items, it, len, schema[f].id, start[f], span[f]);
    forall g | 0 <= g < |schema|
      ensures Count(items + [it], schema[g].id) == Count(items, schema[g].id) + (if g == f then 1 else 0)
      ensures g != f ==> Placed(items + [it], len, schema[g].id, start[g], span[g])
    {
      CountAppend(items, it, schema[g].id);
      PlacedAppend(items, it, len, schema[g].id, start[g], span[g]);
    }
  }

  lemma OneField(schema: seq<Field>, it: Item, f: nat)
    requires SchemaOk(schema) && Lookup(schema, it) == Some(f)
    ensures f < |schema| && forall g :: 0 <= g < |schema| ==> (schema[g].id == it.id <==> g == f)
  {
  }

  lemma CountAppend(items: seq<Item>, it: Item, id: nat)
    ensures Count(items + [it], id) == Count(items, id) + if it.id == id then 1 else 0
  {
    assert (items + [it])[..|items|] == items;
  }

  lemma PlacedStart(schema: seq<Field>, len: nat, start: seq<nat>, span: seq<nat>, counts: seq<nat>)
    requires |start| == |schema| && |span| == |schema| && |counts| == |schema|
    requires forall f :: 0 <= f < |schema| ==> start[f] == len && span[f] == 0 && counts[f] == 0
    ensures PlacedAll(schema, [], len, start, span, counts)
  {
  }

  lemma UnknownEntry(schema: seq<Field>, buf: seq<Byte>, items: seq<Item>, it: Item)
    requires Lookup(schema, it).None?
    requires Decode(buf).Some? ==> |items| < |Decode(buf).value| && Decode(buf).value[|items|] == it
    ensures Decode(buf).Some? ==> !Conforms(schema, Decode(buf).value)
  {
  }

  lemma ReadAll(buf: seq<Byte>, items: seq<Item>)
    requires ReadTo(buf, items, |buf|)
    ensures Decode(buf) == Some(items) && AllSound(items) && buf == Encode(items)
  {
    assert buf[|buf|..] == [] && buf[..|buf|] == buf;
    assert items + [] == items;
  }

  /** Every field starts unread. */
  lemma FieldStarts(items: seq<Item>, len: nat, id: nat, start: nat, span: nat)
    requires Placed(items, len, id, start, span)
    ensures OnBoundary(items, id, start, 0, First(items, id))
    ensures Values(items[First(items, id)..], id) == Values(items, id)
  {
    FirstBeforeEnd(items, id);
    ValuesBeforeFirst(items, id, First(items, id));
  }

  /** How far Parser_Init has come: `items` read up to offset `at`, and the whole reading continues from there. */
  ghost predicate ReadTo(buf: seq<Byte>, items: seq<Item>, at: nat) {
    && at <= |buf| && AllSound(items) && at == Offset(items, |items|) && buf[..at] == Encode(items)
    && Decode(buf) == var rest := Decode(buf[at..]); if rest.None? then None else Some(items + rest.value)
  }

  lemma ReadToStart(buf: seq<Byte>)
    ensures ReadTo(buf, [], 0)
  {
    assert buf[0..] == buf && buf[..0] == [];
    var rest := Decode(buf);
    if rest.Some? { assert [] + rest.value == rest.value; }
  }

  lemma ReadToNext(buf: seq<Byte>, items: seq<Item>, at: nat)
    requires ReadTo(buf, items, at) && at < |buf|
    ensures ReadItem(buf[at..]).None? ==> Decode(buf).None?
    ensures ReadItem(buf[at..]).Some? ==>
              var (it, n) := ReadItem(buf[at..]).value;
              && ReadTo(buf, items + [it], at + n) && at + n == Offset(items + [it], |items| + 1)
              && Offset(items + [it], |items|) == at && Offset(items, |items|) == at
              && (Decode(buf).Some? ==> |items| < |Decode(buf).value| && Decode(buf).value[|items|] == it)
  {
    hide ReadItem, EncodeItem, Sound;
    var s := buf[at..];
    if ReadItem(s).Some? {
      var (it, n) := ReadItem(s).value;
      EncodedOfRead(s);
      var all := items + [it];
      assert all[..|items|] == items && all[..|all|] == all && items[..|items|] == items;
      assert buf[..at + n] == buf[..at] + s[..n];
      assert s[n..] == buf[at + n..];
      var rest := Decode(buf[at + n..]);
      if rest.Some? { assert items + ([it] + rest.value) == all + rest.value; }
    }
  }

  /** The reading position never passes the span, and is at its end exactly when no value is left. */
  lemma AtEndIffRead(items: seq<Item>, len: nat, id: nat, start: nat, span: nat, pos: nat, cur: nat)
    requires Placed(items, len, id, start, span) && OnBoundary(items, id, start, pos, cur)
    ensures pos <= span && cur <= |items|
    ensures pos == span <==> Values(items[cur..], id) == []
  {
    hide Offset, Values, First, End;
    if End(items, id) == 0 {
      NoValues(items, id, cur);
    } else {
      OffsetGrows(items, cur, End(items, id));
      if cur == End(items, id) { NoValues(items, id, cur); } else { SomeValue(items, id, cur); }
    }
  }

  /** Before the end of the span there is a whole entry at the position: what Parser_Get asserts. */
  lemma EntryHere(items: seq<Item>, len: nat, id: nat, start: nat, span: nat, pos: nat, cur: nat)
    requires AllSound(items) && len == |Encode(items)|
    requires Placed(items, len, id, start, span) && OnBoundary(items, id, start, pos, cur) && pos < span
    ensures cur < |items| && start + pos <= len
    ensures ReadItem(Encode(items)[start + pos..]) == Some((items[cur], |EncodeItem(items[cur])|))
    ensures OnBoundary(items, id, start, pos + |EncodeItem(items[cur])|, cur + 1)
    ensures pos + |EncodeItem(items[cur])| <= span
  {
    hide Encode, EncodeItem, ReadItem, First, End, Offset, AllSound;
    var end := End(items, id);
    OffsetGrows(items, cur, end);
    EntryAt(items, cur);
    OffsetNext(items, cur);
    OffsetGrows(items, cur + 1, end);
  }

  lemma FieldEnds(items: seq<Item>, len: nat, id: nat, start: nat, span: nat)
    requires Placed(items, len, id, start, span)
    ensures OnBoundary(items, id, start, span, End(items, id)) && Values(items[End(items, id)..], id) == []
  {
    FirstBeforeEnd(items, id);
    NoValues(items, id, End(items, id));
  }

  class BProtoParser {
    const schema: seq<Field>
    const buf: seq<Byte>
    var start: seq<nat>
    var span: seq<nat>
    var pos: seq<nat>
    ghost var items: seq<Item>
    ghost var cur: seq<nat>

    ghost predicate FieldOk(f: nat)
      reads this
      requires f < |schema| == |start| == |span| == |pos| == |cur|
    {
      && Placed(items, |buf|, schema[f].id, start[f], span[f])
      && OnBoundary(items, schema[f].id, start[f], pos[f], cur[f])
    }

    /** The message was accepted, and `items` are its entries. */
    ghost predicate Valid()
      reads this
    {
      && SchemaOk(schema) && AllSound(items) && buf == Encode(items) && Conforms(schema, items)
      && |start| == |schema| && |span| == |schema| && |pos| == |schema| && |cur| == |schema|
      && forall f :: 0 <= f < |schema| ==> FieldOk(f)
    }

    /** The values of field f not yet read. */
    ghost function Remaining(f: nat): seq<Value>
      reads this
      requires f < |schema| == |cur|
    {
      if cur[f] <= |items| then Values(items[cur[f]..], schema[f].id) else []
    }

    constructor (schema: seq<Field>, buf: seq<Byte>)
      ensures this.schema == schema && this.buf == buf
    {
      this.schema, this.buf := schema, buf;
      start, span, pos := [], [], [];
      items, cur := [], [];
    }

    /** Parser_Init: accepts exactly the encodings of messages that conform to the schema. */
    method Init() returns (ok: bool)
      requires SchemaOk(schema)
      modifies this
      ensures ok <==> Decode(buf).Some? && Conforms(schema, Decode(buf).value)
      ensures ok ==> Valid() && items == Decode(buf).value
                     && forall f :: 0 <= f < |schema| ==> Remaining(f) == Values(items, schema[f].id)
    {
      hide Decode, ReadItem, Encode, ReadTo, Placed, Lookup, Offset, SchemaOk, Count, CardOk, Values, AllSound;
      ok := false;
      start := seq(|schema|, _ => |buf|);
      span := seq(|schema|, _ => 0);
      pos := seq(|schema|, _ => 0);
      var counts: seq<nat> := seq(|schema|, _ => 0);
      items := [];
      var at := 0;
      ReadToStart(buf);
      PlacedStart(schema, |buf|, start, span, counts);
      while at < |buf|
        invariant at <= |buf| && ReadTo(buf, items, at) && Known(schema, items)
        invariant PlacedAll(schema, items, |buf|, start, span, counts)
        invariant |pos| == |schema| && forall f :: 0 <= f < |schema| ==> pos[f] == 0
      {
        var entryPos := at;
        var r := ReadItem(buf[at..]);
        ReadToNext(buf, items, at);
        if r.None? { return; }
        var (it, n) := r.value;
        var field := Lookup(schema, it);
        if field.None? {
          UnknownEntry(schema, buf, items, it);
          return;
        }
        at := at + n;
        var f := field.value;
        PlacedNext(schema, items, it, |buf|, start, span, counts, f, entryPos, at);
        if start[f] == |buf| { start := start[f := entryPos]; }
        span := span[f := at - start[f]];
        counts := counts[f := counts[f] + 1];
        items := items + [it];
      }
      ReadAll(buf, items);
      ok := CheckCards(counts);
      if ok { StartReading(counts); }
    }

    /** The cardinality checks at the end of Parser_Init. */
    method CheckCards(counts: seq<nat>) returns (ok: bool)
      requires |counts| == |schema|
      ensures ok <==> forall f :: 0 <= f < |schema| ==> CardOk(schema[f].card, counts[f])
    {
      var f := 0;
      while f < |schema|
        invariant 0 <= f <= |schema|
        invariant forall g :: 0 <= g < f ==> CardOk(schema[g].card, counts[g])
      {
        if !CardOk(schema[f].card, counts[f]) { return false; }
        f := f + 1;
      }
      ok := true;
    }

    ghost method StartReading(counts: seq<nat>)
      requires SchemaOk(schema) && AllSound(items) && buf == Encode(items) && Conforms(schema, items)
      requires PlacedAll(schema, items, |buf|, start, span, counts)
      requires |pos| == |schema| && forall f :: 0 <= f < |schema| ==> pos[f] == 0
      modifies this`cur
      ensures Valid() && forall f :: 0 <= f < |schema| ==> Remaining(f) == Values(items, schema[f].id)
    {
      hide SchemaOk, AllSound, Encode, Conforms, Placed, OnBoundary, Values;
      var all := items;
      cur := seq(|schema|, f requires 0 <= f < |schema| => First(all, schema[f].id));
      forall f | 0 <= f < |schema| ensures FieldOk(f) && Remaining(f) == Values(items, schema[f].id) {
        FieldStarts(items, |buf|, schema[f].id, start[f], span[f]);
      }
    }

    /** Reads the entry at field f's position and moves past it. */
    method NextEntry(f: nat) returns (it: Item)
      requires Valid() && f < |schema| && pos[f] < span[f]
      modifies this`pos, this`cur
      ensures Valid() && pos[f] > old(pos[f])
      ensures old(cur[f]) < |items| && it == items[old(cur[f])] && cur == old(cur)[f := old(cur[f]) + 1]
      ensures forall g :: 0 <= g < |schema| && g != f ==> pos[g] == old(pos[g])
    {
      hide SchemaOk, AllSound, Encode, Conforms, Placed, OnBoundary, ReadItem, EncodeItem;
      assert FieldOk(f);
      EntryHere(items, |buf|, schema[f].id, start[f], span[f], pos[f], cur[f]);
      var r := ReadItem(buf[start[f] + pos[f]..]);
      it := r.value.0;
      pos := pos[f := pos[f] + r.value.1];
      cur := cur[f := cur[f] + 1];
      assert FieldOk(f);
      forall g | 0 <= g < |schema| ensures FieldOk(g) { assert g != f ==> old(FieldOk(g)); }
    }

    /** Parser_Get: the next value of field f, or None when there is no more. */
    method Get(f: nat) returns (r: Option<Value>)
      requires Valid() && f < |schema|
      modifies this`pos, this`cur
      ensures Valid()
      ensures if old(Remaining(f)) == [] then r == None && Remaining(f) == []
              else r == Some(old(Remaining(f))[0]) && Remaining(f) == old(Remaining(f))[1..]
      ensures forall g :: 0 <= g < |schema| && g != f ==> Remaining(g) == old(Remaining(g)) && pos[g] == old(pos[g])
    {
      hide FieldOk, SchemaOk, AllSound, Encode, Conforms, Values, TypeMatches;
      FieldFacts(f);
      while pos[f] < span[f]
        invariant Valid()
        invariant Remaining(f) == old(Remaining(f)) && (pos[f] >= span[f] ==> Remaining(f) == [])
        invariant forall g :: 0 <= g < |schema| && g != f ==> cur[g] == old(cur[g]) && pos[g] == old(pos[g])
        decreases (span[f] as int) - pos[f]
      {
        ghost var k := cur[f];
        var it := NextEntry(f);
        FieldFacts(f);
        EntryFacts(f, k);
        if TypeMatches(schema[f].kind, it.value) && it.id == schema[f].id { return Some(it.value); }
      }
      r := None;
    }

    lemma FieldFacts(f: nat)
      requires Valid() && f < |schema|
      ensures pos[f] <= span[f] && cur[f] <= |items|
      ensures pos[f] == span[f] <==> Remaining(f) == []
    {
      assert FieldOk(f);
      AtEndIffRead(items, |buf|, schema[f].id, start[f], span[f], pos[f], cur[f]);
    }

    lemma EntryFacts(f: nat, k: nat)
      requires Valid() && f < |schema| && k < |items|
      ensures var rest := Values(items[k + 1..], schema[f].id);
              Values(items[k..], schema[f].id) ==
              if items[k].id == schema[f].id && TypeMatches(schema[f].kind, items[k].value)
                then [items[k].value] + rest else rest
    {
      ValuesFrom(items, schema[f].id, k);
      TypeIsFields(schema, items, f, k);
    }

    /** Parser_Reset */
    method Reset(f: nat)
      requires Valid() && f < |schema|
      modifies this`pos, this`cur
      ensures Valid() && Remaining(f) == Values(items, schema[f].id)
      ensures forall g :: 0 <= g < |schema| && g != f ==> Remaining(g) == old(Remaining(g)) && pos[g] == old(pos[g])
    {
      hide SchemaOk, AllSound, Encode, Conforms, Placed, OnBoundary, Values, First;
      assert FieldOk(f);
      FieldStarts(items, |buf|, schema[f].id, start[f], span[f]);
      pos := pos[f := 0];
      cur := cur[f := First(items, schema[f].id)];
      assert FieldOk(f);
      forall g | 0 <= g < |schema| ensures FieldOk(g) { assert g != f ==> old(FieldOk(g)); }
    }

    /** Parser_Forward */
    method Forward(f: nat)
      requires Valid() && f < |schema|
      modifies this`pos, this`cur
      ensures Valid() && Remaining(f) == []
      ensures forall g :: 0 <= g < |schema| && g != f ==> Remaining(g) == old(Remaining(g)) && pos[g] == old(pos[g])
    {
      hide SchemaOk, AllSound, Encode, Conforms, Placed, OnBoundary, Values, End;
      assert FieldOk(f);
      FieldEnds(items, |buf|, schema[f].id, start[f], span[f]);
      pos := pos[f := span[f]];
      cur := cur[f := End(items, schema[f].id)];
      assert FieldOk(f);
      forall g | 0 <= g < |schema| ensures FieldOk(g) { assert g != f ==> old(FieldOk(g)); }
    }

    /** Parser_GotEverything: whether no field has a value left. */
    method GotEverything() returns (all: bool)
      requires Valid()
      ensures all <==> forall f :: 0 <= f < |schema| ==> Remaining(f) == []
    {
      hide FieldOk, SchemaOk, AllSound, Encode, Conforms, Values;
      forall f | 0 <= f < |schema| ensures pos[f] == span[f] <==> Remaining(f) == [] { FieldFacts(f); }
      all := forall f :: 0 <= f < |schema| ==> pos[f] == span[f];
    }
  }

  class BProtoWriter {
    const schema: seq<Field>
    const out: array<Byte>
    var used: nat
    var counts: seq<nat>
    ghost var items: seq<Item>

    /** What was written so far is the encoding of the entries added so far, which are of the schema's fields. */
    ghost predicate Valid()
      reads this, out
    {
      && SchemaOk(schema) && used <= out.Length && out[..used] == Encode(items)
      && AllSound(items) && Known(schema, items)
      && |counts| == |schema| && forall f :: 0 <= f < |schema| ==> counts[f] == Count(items, schema[f].id)
    }

    constructor (schema: seq<Field>, out: array<Byte>)
      requires SchemaOk(schema)
      ensures Valid() && items == [] && this.schema == schema && this.out == out
    {
      this.schema, this.out := schema, out;
      used := 0;
      counts := seq(|schema|, _ => 0);
      items := [];
    }

    /** memcpy to out + used */
    method Put(bytes: seq<Byte>)
      requires used + |bytes| <= out.Length
      modifies this`used, out
      ensures used == old(used) + |bytes| && out[..used] == old(out[..used]) + bytes
    {
      var i := 0;
      while i < |bytes|
        modifies out
        invariant 0 <= i <= |bytes|
        invariant forall j :: 0 <= j < used ==> out[j] == old(out[j])
        invariant forall j :: 0 <= j < i ==> out[used + j] == bytes[j]
      {
        out[used + i] := bytes[i];
        i := i + 1;
      }
      assert out[..used] == old(out[..used]) && out[used..used + i] == bytes;
      used := used + |bytes|;
    }

    /** Writer_Add for an integer field. */
    method AddNumber(f: nat, v: nat)
      requires Valid() && f < |schema| && schema[f].kind.UInt? && v < Pow256(schema[f].kind.size)
      requires used + 4 + schema[f].kind.size <= out.Length
      requires schema[f].card.Optional? || schema[f].card.Required? ==> counts[f] == 0
      modifies this, out
      ensures Valid() && items == old(items) + [Item(schema[f].id, Number(schema[f].kind.size, v))]
    {
      hide Encode, EncodeItem, Le, Lookup, Count, Pow256;
      ghost var it := Item(schema[f].id, Number(schema[f].kind.size, v));
      NumberBytes(it);
      Put(Le(schema[f].id, 2));
      Put(Le(TypeOf(Number(schema[f].kind.size, 0)), 2));
      Put(Le(v, schema[f].kind.size));
      Added(schema, old(items), it, f);
      Regroup3(old(out[..used]), Le(it.id, 2), Le(TypeOf(it.value), 2), Body(it.value));
      counts := counts[f := counts[f] + 1];
      items := items + [it];
    }

    /** Writer_Add for a data field, with the data its caller puts into the space returned. */
    method AddBlob(f: nat, data: seq<Byte>)
      requires Valid() && f < |schema| && KindOk(schema[f].kind, Blob(schema[f].kind.ConstData?, data)) && |data| < U32
      requires used + 8 + |data| <= out.Length
      requires schema[f].card.Optional? || schema[f].card.Required? ==> counts[f] == 0
      modifies this, out
      ensures Valid() && items == old(items) + [Item(schema[f].id, Blob(schema[f].kind.ConstData?, data))]
    {
      hide Encode, EncodeItem, Le, Lookup, Count, Pow256;
      ghost var it := Item(schema[f].id, Blob(schema[f].kind.ConstData?, data));
      NumberBytes(it);
      Put(Le(schema[f].id, 2));
      Put(Le(TypeOf(Blob(schema[f].kind.ConstData?, [])), 2));
      ghost var head := out[..used];
      Put(Le(|data|, 4));
      Put(data);
      assert head + Le(|data|, 4) + data == head + Body(it.value);
      Added(schema, old(items), it, f);
      Regroup3(old(out[..used]), Le(it.id, 2), Le(TypeOf(it.value), 2), Body(it.value));
      counts := counts[f := counts[f] + 1];
      items := items + [it];
    }

    /** Writer_Finish */
    method Finish() returns (len: nat)
      requires Valid() && forall f :: 0 <= f < |schema| ==> CardOk(schema[f].card, counts[f])
      ensures len <= out.Length && Conforms(schema, items) && Decode(out[..len]) == Some(items)
    {
      len := used;
      DecodeInvertsEncode(out[..used], items);
    }
  }

  lemma NumberBytes(it: Item)
    ensures EncodeItem(it) == Le(it.id, 2) + Le(TypeOf(it.value), 2) + Body(it.value)
  {
  }

  lemma Regroup3(a: seq<Byte>, b: seq<Byte>, c: seq<Byte>, d: seq<Byte>)
    ensures ((a + b) + c) + d == a + ((b + c) + d)
  {
  }

  lemma Added(schema: seq<Field>, items: seq<Item>, it: Item, f: nat)
    requires SchemaOk(schema) && AllSound(items) && Known(schema, items)
    requires f < |schema| && it.id == schema[f].id && KindOk(schema[f].kind, it.value) && Sound(it)
    ensures AllSound(items + [it]) && Known(schema, items + [it])
    ensures Encode(items + [it]) == Encode(items) + EncodeItem(it)
    ensures forall g :: 0 <= g < |schema| ==>
              Count(items + [it], schema[g].id) == Count(items, schema[g].id) + if g == f then 1 else 0
  {
    assert (items + [it])[..|items|] == items;
  }

  /**
   * Whatever entries were added, in whatever order, the parser accepts the finished message, and reading a
   * field gives the values added to it, in the order of adding.
   */
  method Transfer(w: BProtoWriter) returns (p: BProtoParser, ok: bool)
    requires w.Valid() && forall f :: 0 <= f < |w.schema| ==> CardOk(w.schema[f].card, w.counts[f])
    ensures fresh(p) && ok && p.Valid() && p.schema == w.schema
    ensures forall f :: 0 <= f < |p.schema| ==> p.Remaining(f) == Values(w.items, w.schema[f].id)
  {
    hide SchemaOk, Conforms, Values, Decode, AllSound, Known, Count, CardOk;
    var len := w.Finish();
    p := new BProtoParser(w.schema, w.out[..len]);
    ok := p.Init();
  }
}
