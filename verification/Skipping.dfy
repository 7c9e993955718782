/** Depth-limited skipping, as a function of the unread bytes, and its relation to reading. */
module Skipping {
  import opened Wrappers
  import opened WireTypes
  import opened Varint
  import opened WireFormat
  import opened WireTheorems

  /** What is left after skipping one value of type `t`, descending at most `depth` levels. */
  function SkipBytes(d: Dialect, t: TType, s: seq<byte>, depth: int, max: nat): (r: Result<seq<byte>>)
    ensures r.Ok? ==> |r.value| < |s|
    decreases |s|, 1
  {
    if depth <= 0 then Err(DepthLimit)
    else if IsScalarType(t) then
      var (_, rest) :- TakeScalar(d, t, s, max);
      Ok(rest)
    else if t == STRUCT then SkipFields(d, s, 0, depth - 1, max)
    else if t == LIST || t == SET then
      var ((et, n), rest) :- TakeListHeader(d, s, max);
      SkipElems(d, et, n, rest, depth - 1, max)
    else if t == MAP then
      var ((kt, vt, n), rest) :- TakeMapHeader(d, s, max);
      SkipEntries(d, kt, vt, n, rest, depth - 1, max)
    else Err(InvalidData)
  }

  /** A boolean that already came with its field header takes no bytes; anything else is skipped. */
  function SkipValue(d: Dialect, t: TType, carried: Option<bool>, s: seq<byte>, depth: int, max: nat):
      (r: Result<seq<byte>>)
    ensures r.Ok? ==> |r.value| <= |s|
    decreases |s|, 2
  {
    if carried.None? then SkipBytes(d, t, s, depth, max)
    else if depth <= 0 then Err(DepthLimit)
    else Ok(s)
  }

  function SkipFields(d: Dialect, s: seq<byte>, lastId: int, depth: int, max: nat): (r: Result<seq<byte>>)
    ensures r.Ok? ==> |r.value| < |s|
    decreases |s|, 0
  {
    var (h, rest) :- TakeFieldHeader(d, s, lastId);
    if h.StopField? then Ok(rest)
    else
      var rest' :- SkipValue(d, h.t, h.carried, rest, depth, max);
      SkipFields(d, rest', h.id, depth, max)
  }

  function SkipElems(d: Dialect, et: TType, n: nat, s: seq<byte>, depth: int, max: nat): (r: Result<seq<byte>>)
    ensures r.Ok? ==> |r.value| <= |s|
    decreases |s|, 2
  {
    if n == 0 then Ok(s)
    else
      var rest :- SkipBytes(d, et, s, depth, max);
      SkipElems(d, et, n - 1, rest, depth, max)
  }

  function SkipEntries(d: Dialect, kt: TType, vt: TType, n: nat, s: seq<byte>, depth: int, max: nat):
      (r: Result<seq<byte>>)
    ensures r.Ok? ==> |r.value| <= |s|
    decreases |s|, 2
  {
    if n == 0 then Ok(s)
    else
      var rest :- SkipBytes(d, kt, s, depth, max);
      var rest' :- SkipBytes(d, vt, rest, depth, max);
      SkipEntries(d, kt, vt, n - 1, rest', depth, max)
  }

  /** What skipping must give when reading gives `r` and the value read needs `needed` levels. */
  predicate Agrees<T>(skipped: Result<seq<byte>>, r: Result<(T, seq<byte>)>, needed: nat, depth: int) {
    match r
    case Ok((_, rest)) => skipped == if needed <= depth then Ok(rest) else Err(DepthLimit)
    case Err(_) => skipped.Err?
  }

  function Need(r: Result<(Value, seq<byte>)>): nat {
    if r.Ok? then Depth(r.value.0) else 0
  }

  /**
   On every input, well formed or not: skipping stops exactly where reading stops when the value
   is at most `depth` levels deep, reports the depth limit when it is deeper, and fails when
   reading fails.
   */
  lemma {:induction false} SkipAgreesWithDecode(d: Dialect, t: TType, s: seq<byte>, depth: int, max: nat)
    ensures Agrees(SkipBytes(d, t, s, depth, max), Decode(d, t, s, max), Need(Decode(d, t, s, max)), depth)
    decreases |s|, 2
  {
    if depth <= 0 {
      DepthPositive(Decode(d, t, s, max));
    } else if t == STRUCT {
      SkipFieldsAgrees(d, s, 0, depth - 1, max);
    } else if t == LIST || t == SET {
      SkipListAgrees(d, t, s, depth, max);
    } else if t == MAP {
      SkipMapAgrees(d, s, depth, max);
    } else if IsScalarType(t) {
      var r := TakeScalar(d, t, s, max);
      assert r.Ok? ==> Depth(r.value.0) == 1;
    }
  }

  lemma DepthPositive(r: Result<(Value, seq<byte>)>)
    ensures r.Ok? ==> Need(r) >= 1
  {
  }

  lemma {:induction false} SkipListAgrees(d: Dialect, t: TType, s: seq<byte>, depth: int, max: nat)
    requires depth > 0 && (t == LIST || t == SET)
    ensures Agrees(SkipBytes(d, t, s, depth, max), Decode(d, t, s, max), Need(Decode(d, t, s, max)), depth)
    decreases |s|, 1
  {
    var h := TakeListHeader(d, s, max);
    if h.Ok? {
      SkipElemsAgrees(d, h.value.0.0, h.value.0.1, h.value.1, depth - 1, max);
    }
  }

  lemma {:induction false} SkipMapAgrees(d: Dialect, s: seq<byte>, depth: int, max: nat)
    requires depth > 0
    ensures Agrees(SkipBytes(d, MAP, s, depth, max), Decode(d, MAP, s, max), Need(Decode(d, MAP, s, max)), depth)
    decreases |s|, 1
  {
    var h := TakeMapHeader(d, s, max);
    if h.Ok? {
      SkipEntriesAgrees(d, h.value.0.0, h.value.0.1, h.value.0.2, h.value.1, depth - 1, max);
    }
  }

  lemma {:induction false} SkipFieldsAgrees(d: Dialect, s: seq<byte>, lastId: int, depth: int, max: nat)
    requires depth >= 0
    ensures var r := DecodeFields(d, s, lastId, max);
            Agrees(SkipFields(d, s, lastId, depth, max), r, if r.Ok? then FieldsDepth(r.value.0) else 0, depth)
    decreases |s|, 0
  {
    var h := TakeFieldHeader(d, s, lastId);
    if h.Ok? && h.value.0.FieldHeader? {
      var rest := h.value.1;
      SkipAgreesWithDecode(d, h.value.0.t, rest, depth, max);
      var v := if h.value.0.carried.Some? then Ok((BoolV(h.value.0.carried.value), rest))
               else Decode(d, h.value.0.t, rest, max);
      if v.Ok? {
        var tail := DecodeFields(d, v.value.1, h.value.0.id, max);
        SkipFieldsAgrees(d, v.value.1, h.value.0.id, depth, max);
        if tail.Ok? {
          FieldsDepthCons(Field(h.value.0.id, v.value.0), tail.value.0);
        }
      }
    }
  }

  lemma FieldsDepthCons(f: Field, fields: seq<Field>)
    ensures FieldsDepth([f] + fields) == Max(Depth(f.value), FieldsDepth(fields))
  {
    assert ([f] + fields)[1..] == fields;
  }

  lemma {:induction false} SkipElemsAgrees(d: Dialect, et: TType, n: nat, s: seq<byte>, depth: int, max: nat)
    requires depth >= 0
    ensures var r := DecodeElems(d, et, n, s, max);
            Agrees(SkipElems(d, et, n, s, depth, max), r, if r.Ok? then ElemsDepth(r.value.0) else 0, depth)
    decreases |s|, 3
  {
    if n > 0 {
      SkipAgreesWithDecode(d, et, s, depth, max);
      var v := Decode(d, et, s, max);
      if v.Ok? {
        SkipElemsAgrees(d, et, n - 1, v.value.1, depth, max);
      }
    }
  }

  lemma {:induction false} SkipEntriesAgrees(d: Dialect, kt: TType, vt: TType, n: nat, s: seq<byte>, depth: int,
                                             max: nat)
    requires depth >= 0
    ensures var r := DecodeEntries(d, kt, vt, n, s, max);
            Agrees(SkipEntries(d, kt, vt, n, s, depth, max), r, if r.Ok? then EntriesDepth(r.value.0) else 0, depth)
    decreases |s|, 3
  {
    if n > 0 {
      SkipAgreesWithDecode(d, kt, s, depth, max);
      var k := Decode(d, kt, s, max);
      if k.Ok? {
        SkipAgreesWithDecode(d, vt, k.value.1, depth, max);
        var v := Decode(d, vt, k.value.1, max);
        if v.Ok? {
          SkipEntriesAgrees(d, kt, vt, n - 1, v.value.1, depth, max);
        }
      }
    }
  }

  lemma {:induction false} CanonDepth(d: Dialect, v: Value)
    ensures Depth(Canon(d, v)) == Depth(v)
    decreases v
  {
    match v
    case StructV(fields) => CanonFieldsDepth(d, fields);
    case ListV(_, elems) => CanonElemsDepth(d, elems);
    case SetV(_, elems) => CanonElemsDepth(d, elems);
    case MapV(_, _, entries) => CanonEntriesDepth(d, entries);
    case _ =>
  }

  lemma {:induction false} CanonFieldsDepth(d: Dialect, fields: seq<Field>)
    ensures FieldsDepth(CanonFields(d, fields)) == FieldsDepth(fields)
    decreases fields
  {
    if fields != [] {
      CanonFieldDepth(d, fields[0]);
      CanonFieldsDepth(d, fields[1..]);
      FieldsDepthCons(CanonField(d, fields[0]), CanonFields(d, fields[1..]));
    }
  }

  lemma {:induction false} CanonFieldDepth(d: Dialect, f: Field)
    ensures Depth(CanonField(d, f).value) == Depth(f.value)
    decreases f
  {
    CanonDepth(d, f.value);
  }

  lemma {:induction false} CanonElemsDepth(d: Dialect, elems: seq<Value>)
    ensures ElemsDepth(CanonElems(d, elems)) == ElemsDepth(elems)
    decreases elems
  {
    if elems != [] {
      CanonDepth(d, elems[0]);
      CanonElemsDepth(d, elems[1..]);
      assert CanonElems(d, elems)[1..] == CanonElems(d, elems[1..]);
    }
  }

  lemma {:induction false} CanonEntriesDepth(d: Dialect, entries: seq<Entry>)
    ensures EntriesDepth(CanonEntries(d, entries)) == EntriesDepth(entries)
    decreases entries
  {
    if entries != [] {
      CanonEntryDepth(d, entries[0]);
      CanonEntriesDepth(d, entries[1..]);
      assert CanonEntries(d, entries)[1..] == CanonEntries(d, entries[1..]);
    }
  }

  lemma {:induction false} CanonEntryDepth(d: Dialect, e: Entry)
    ensures EntryDepth(CanonEntry(d, e)) == EntryDepth(e)
    decreases e
  {
    CanonDepth(d, e.key);
    CanonDepth(d, e.value);
  }

  /**
   Of an encoded value followed by anything, skipping leaves exactly what follows if the value
   nests no deeper than the limit, and reports the depth limit otherwise.
   */
  lemma SkipEncoded(d: Dialect, v: Value, rest: seq<byte>, depth: int, max: nat)
    requires WellTyped(v, max) && max <= MAX_SIZE
    ensures SkipBytes(d, TypeOf(v), Encode(d, v) + rest, depth, max)
            == if Depth(v) <= depth then Ok(rest) else Err(DepthLimit)
  {
    RoundTrip(d, v, rest, max);
    CanonDepth(d, v);
    SkipAgreesWithDecode(d, TypeOf(v), Encode(d, v) + rest, depth, max);
  }
}
