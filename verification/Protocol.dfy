/**
 The protocol interface: a compact or a binary protocol object behind one set of calls, the
 depth-limited `Skip` over it, and the call sequences generated code makes for a value.
 */
module Protocol {
  import opened Wrappers
  import opened WireTypes
  import opened Varint
  import opened WireFormat
  import opened WireTheorems
  import opened Skipping
  import opened CompactProtocol
  import opened BinaryProtocol

  const DEFAULT_RECURSION_DEPTH := 64

  /** What a protocol object holds between calls. A binary object holds nothing but its transport. */
  datatype View = View(
    trans: seq<byte>,
    lastField: seq<int16>,
    lastFieldId: int16,
    pending: Option<int16>,   // the id of a boolean field whose header is not yet written
    carried: Option<bool>)    // a boolean read with its header and not yet asked for

  datatype TProtocol = CompactP(c: TCompactProtocol) | BinaryP(b: TBinaryProtocol) {

    function D(): Dialect {
      if CompactP? then Compact else Binary
    }

    function Obj(): object {
      match this
      case CompactP(c) => c
      case BinaryP(b) => b
    }

    function MaxSize(): nat {
      if CompactP? then c.maxMessageSize else b.maxMessageSize
    }

    ghost function Now(): View
      reads Obj()
    {
      match this
      case CompactP(c) =>
        View(c.trans, c.lastField, c.lastFieldId,
             if c.booleanFieldPending then Some(c.booleanFieldId) else None,
             if c.boolValueIsNotNull then Some(c.boolValue) else None)
      case BinaryP(b) => View(b.trans, [], 0, None, None)
    }

    method WriteStructBegin()
      modifies Obj()
      ensures Now() == Entered(D(), old(Now()))
    {
      match this
      case CompactP(c) => c.WriteStructBegin();
      case BinaryP(_) =>
    }

    method WriteStructEnd() returns (o: Outcome)
      requires CompactP? ==> Now().lastField != []
      modifies Obj()
      ensures o == Pass && Now() == Left(D(), old(Now()))
    {
      match this
      case CompactP(c) => o := c.WriteStructEnd();
      case BinaryP(_) => o := Pass;
    }

    method WriteFieldBegin(t: TType, id: int16)
      requires Now().pending.None?
      modifies Obj()
      ensures D() == Compact && t == BOOL ==> Now() == old(Now()).(pending := Some(id))
      ensures !(D() == Compact && t == BOOL) ==>
                Now() == AfterHeader(D(), old(Now()), id).(
                           trans := old(Now()).trans + FieldHeaderBytes(D(), t, id, old(Now()).lastFieldId, None))
    {
      match this
      case CompactP(c) => c.WriteFieldBegin(t, id);
      case BinaryP(b) => b.WriteFieldBegin(t, id);
    }

    method WriteFieldStop()
      modifies Obj()
      ensures Now() == old(Now()).(trans := old(Now()).trans + [STOP])
    {
      match this
      case CompactP(c) => c.WriteFieldStop();
      case BinaryP(b) => b.WriteFieldStop();
    }

    method WriteMapBegin(kt: TType, vt: TType, size: nat)
      modifies Obj()
      ensures Now() == old(Now()).(trans := old(Now()).trans + MapHeaderBytes(D(), kt, vt, size))
    {
      match this
      case CompactP(c) => c.WriteMapBegin(kt, vt, size);
      case BinaryP(b) => b.WriteMapBegin(kt, vt, size);
    }

    method WriteCollectionBegin(t: TType, size: nat)
      modifies Obj()
      ensures Now() == old(Now()).(trans := old(Now()).trans + ListHeaderBytes(D(), t, size))
    {
      match this
      case CompactP(c) => c.WriteCollectionBegin(t, size);
      case BinaryP(b) => b.WriteCollectionBegin(t, size);
    }

    /** A boolean whose field header is pending becomes the header. */
    method WriteScalar(v: Value)
      requires IsScalar(v) && (Now().pending.Some? ==> v.BoolV?)
      modifies Obj()
      ensures old(Now()).pending.None? ==>
                Now() == old(Now()).(trans := old(Now()).trans + ScalarBytes(D(), v))
      ensures old(Now()).pending.Some? ==>
                var id := old(Now()).pending.value;
                Now() == old(Now()).(
                           trans := old(Now()).trans +
                               FieldHeaderBytes(Compact, BOOL, id, old(Now()).lastFieldId, Some(v.b)),
                           lastFieldId := id,
                           pending := None)
    {
      match this
      case CompactP(c) => if v.BoolV? { c.WriteBool(v.b); } else { c.WriteScalar(v); }
      case BinaryP(b) => b.WriteScalar(v);
    }

    method ReadStructBegin()
      modifies Obj()
      ensures Now() == Entered(D(), old(Now()))
    {
      match this
      case CompactP(c) => c.ReadStructBegin();
      case BinaryP(_) =>
    }

    method ReadStructEnd() returns (o: Outcome)
      requires CompactP? ==> Now().lastField != []
      modifies Obj()
      ensures o == Pass && Now() == Left(D(), old(Now()))
    {
      match this
      case CompactP(c) => o := c.ReadStructEnd();
      case BinaryP(_) => o := Pass;
    }

    method ReadFieldBegin() returns (r: Result<(TType, int16)>)
      requires Now().carried.None?
      modifies Obj()
      ensures match TakeFieldHeader(D(), old(Now()).trans, old(Now()).lastFieldId)
              case Err(e) => r == Err(e)
              case Ok((h, rest)) =>
                if h.StopField? then r == Ok((STOP, 0)) && Now() == old(Now()).(trans := rest)
                else
                  r == Ok((h.t, h.id)) && h.t != STOP &&
                  Now() == AfterHeader(D(), old(Now()), h.id).(trans := rest, carried := h.carried)
    {
      match this
      case CompactP(c) => r := c.ReadFieldBegin();
      case BinaryP(b) => r := b.ReadFieldBegin();
    }

    method ReadMapBegin() returns (r: Result<(TType, TType, nat)>)
      modifies Obj()
      ensures match TakeMapHeader(D(), old(Now()).trans, MaxSize())
              case Ok((h, rest)) => r == Ok(h) && Now() == old(Now()).(trans := rest)
              case Err(e) => r == Err(e)
    {
      match this
      case CompactP(c) => r := c.ReadMapBegin();
      case BinaryP(b) => r := b.ReadMapBegin();
    }

    method ReadListBegin() returns (r: Result<(TType, nat)>)
      modifies Obj()
      ensures match TakeListHeader(D(), old(Now()).trans, MaxSize())
              case Ok((h, rest)) => r == Ok(h) && Now() == old(Now()).(trans := rest)
              case Err(e) => r == Err(e)
    {
      match this
      case CompactP(c) => r := c.ReadListBegin();
      case BinaryP(b) => r := b.ReadListBegin();
    }

    method ReadScalar(t: TType) returns (r: Result<Value>)
      requires IsScalarType(t) && (Now().carried.Some? ==> t == BOOL)
      modifies Obj()
      ensures old(Now()).carried.None? ==>
                match TakeScalar(D(), t, old(Now()).trans, MaxSize())
                case Ok((v, rest)) => r == Ok(v) && Now() == old(Now()).(trans := rest)
                case Err(e) => r == Err(e)
      ensures old(Now()).carried.Some? ==>
                r == Ok(BoolV(old(Now()).carried.value)) && Now() == old(Now()).(carried := None)
    {
      match this
      case CompactP(c) =>
        if t == BOOL {
          var b := c.ReadBool();
          r := if b.Err? then Err(b.error) else Ok(BoolV(b.value));
        } else {
          r := c.ReadScalar(t);
        }
      case BinaryP(b) => r := b.ReadScalar(t);
    }
  }

  /** Inside a struct: the enclosing struct's last field id is stacked and ids start from zero. */
  function Entered(d: Dialect, v: View): View {
    if d.Compact? then v.(lastField := v.lastField + [v.lastFieldId], lastFieldId := 0) else v
  }

  function Left(d: Dialect, v: View): View
    requires d.Compact? ==> v.lastField != []
  {
    if d.Compact? then
      v.(lastField := v.lastField[..|v.lastField| - 1], lastFieldId := v.lastField[|v.lastField| - 1])
    else v
  }

  function AfterHeader(d: Dialect, v: View, id: int16): View {
    if d.Compact? then v.(lastFieldId := id) else v
  }

  lemma LeaveEntered(d: Dialect, v: View, id: int16, trans: seq<byte>)
    ensures Left(d, AfterHeader(d, Entered(d, v), id).(trans := trans)) == v.(trans := trans)
  {
  }

  // ---------- skipping ----------

  /**
   Skips one value. On success exactly the value is gone and the object is otherwise as before;
   the error is the one `SkipBytes` names.
   */
  method Skip(self: TProtocol, t: TType, maxDepth: int) returns (o: Outcome)
    requires self.Now().carried.Some? ==> t == BOOL
    modifies self.Obj()
    ensures match SkipValue(self.D(), t, old(self.Now()).carried, old(self.Now()).trans, maxDepth, self.MaxSize())
            case Ok(rest) => o == Pass && self.Now() == old(self.Now()).(trans := rest, carried := None)
            case Err(e) => o == Fail(e)
    decreases |self.Now().trans|, 1
  {
    SkipCases(self.D(), t, self.Now().carried, self.Now().trans, maxDepth, self.MaxSize());
    if maxDepth <= 0 {
      return Fail(DepthLimit);
    }
    if IsScalarType(t) {
      o := SkipScalar(self, t, maxDepth);
    } else if t == STRUCT {
      o := SkipStruct(self, maxDepth);
    } else if t == MAP {
      o := SkipMap(self, maxDepth);
    } else if t == SET || t == LIST {
      o := SkipList(self, t, maxDepth);
    } else {
      return Fail(InvalidData);
    }
  }

  lemma SkipCases(d: Dialect, t: TType, carried: Option<bool>, s: seq<byte>, depth: int, max: nat)
    requires carried.Some? ==> t == BOOL
    ensures var r := SkipValue(d, t, carried, s, depth, max);
            if depth <= 0 then r == Err(DepthLimit)
            else if IsScalarType(t) then true
            else carried.None? && r == SkipBytes(d, t, s, depth, max) &&
                 (t == STRUCT ==> r == SkipFields(d, s, 0, depth - 1, max)) &&
                 (t == STRUCT || t == MAP || t == SET || t == LIST || r == Err(InvalidData))
  {
  }

  method SkipScalar(self: TProtocol, t: TType, maxDepth: int) returns (o: Outcome)
    requires (self.Now().carried.Some? ==> t == BOOL) && IsScalarType(t) && maxDepth > 0
    modifies self.Obj()
    ensures match SkipValue(self.D(), t, old(self.Now()).carried, old(self.Now()).trans, maxDepth, self.MaxSize())
            case Ok(rest) => o == Pass && self.Now() == old(self.Now()).(trans := rest, carried := None)
            case Err(e) => o == Fail(e)
  {
    SkipScalarBytes(self.D(), t, self.Now().trans, maxDepth, self.MaxSize());
    var r := self.ReadScalar(t);
    return if r.Err? then Fail(r.error) else Pass;
  }

  lemma SkipScalarBytes(d: Dialect, t: TType, s: seq<byte>, depth: int, max: nat)
    requires depth > 0 && IsScalarType(t)
    ensures match TakeScalar(d, t, s, max)
            case Ok((_, rest)) => SkipBytes(d, t, s, depth, max) == Ok(rest)
            case Err(e) => SkipBytes(d, t, s, depth, max) == Err(e)
  {
  }

  method SkipStruct(self: TProtocol, maxDepth: int) returns (o: Outcome)
    requires self.Now().carried.None? && maxDepth > 0
    modifies self.Obj()
    ensures match SkipFields(self.D(), old(self.Now()).trans, 0, maxDepth - 1, self.MaxSize())
            case Ok(rest) => o == Pass && self.Now() == old(self.Now()).(trans := rest)
            case Err(e) => o == Fail(e)
    decreases |self.Now().trans|, 0
  {
    ghost var d, before := self.D(), self.Now();
    self.ReadStructBegin();
    ghost var id: int16 := 0;
    while true
      invariant self.Now() == AfterHeader(d, Entered(d, before), id).(trans := self.Now().trans)
      invariant SkipFields(d, before.trans, 0, maxDepth - 1, self.MaxSize())
                == SkipFields(d, self.Now().trans, id, maxDepth - 1, self.MaxSize())
      invariant |self.Now().trans| <= |before.trans|
      decreases |self.Now().trans|
    {
      FieldHeaderIgnoresId(d, self.Now().trans, id, self.Now().lastFieldId);
      var h := self.ReadFieldBegin();
      if h.Err? {
        return Fail(h.error);
      }
      if h.value.0 == STOP {
        break;
      }
      id := h.value.1;
      var r := Skip(self, h.value.0, maxDepth - 1);
      if r.Fail? {
        return r;
      }
    }
    LeaveEntered(d, before, id, self.Now().trans);
    o := self.ReadStructEnd();
  }

  /** Only the compact protocol's headers depend on the previous field id. */
  lemma FieldHeaderIgnoresId(d: Dialect, s: seq<byte>, id: int, id': int)
    requires d.Compact? ==> id == id'
    ensures TakeFieldHeader(d, s, id) == TakeFieldHeader(d, s, id')
  {
  }

  method SkipMap(self: TProtocol, maxDepth: int) returns (o: Outcome)
    requires self.Now().carried.None? && maxDepth > 0
    modifies self.Obj()
    ensures match SkipBytes(self.D(), MAP, old(self.Now()).trans, maxDepth, self.MaxSize())
            case Ok(rest) => o == Pass && self.Now() == old(self.Now()).(trans := rest)
            case Err(e) => o == Fail(e)
    decreases |self.Now().trans|, 0
  {
    var h := self.ReadMapBegin();
    if h.Err? {
      return Fail(h.error);
    }
    o := SkipPairs(self, h.value.0, h.value.1, h.value.2, maxDepth - 1);
  }

  method SkipPairs(self: TProtocol, kt: TType, vt: TType, size: nat, depth: int) returns (o: Outcome)
    requires self.Now().carried.None?
    modifies self.Obj()
    ensures match SkipEntries(self.D(), kt, vt, size, old(self.Now()).trans, depth, self.MaxSize())
            case Ok(rest) => o == Pass && self.Now() == old(self.Now()).(trans := rest)
            case Err(e) => o == Fail(e)
    decreases |self.Now().trans|, 2
  {
    ghost var d, before, max := self.D(), self.Now(), self.MaxSize();
    for i := 0 to size
      invariant self.Now() == before.(trans := self.Now().trans)
      invariant SkipEntries(d, kt, vt, size, before.trans, depth, max)
                == SkipEntries(d, kt, vt, size - i, self.Now().trans, depth, max)
      invariant |self.Now().trans| <= |before.trans|
    {
      o := Skip(self, kt, depth);
      if o.Fail? {
        return;
      }
      o := Skip(self, vt, depth);
      if o.Fail? {
        return;
      }
    }
    return Pass;
  }

  method SkipList(self: TProtocol, t: TType, maxDepth: int) returns (o: Outcome)
    requires self.Now().carried.None? && maxDepth > 0 && (t == LIST || t == SET)
    modifies self.Obj()
    ensures match SkipBytes(self.D(), t, old(self.Now()).trans, maxDepth, self.MaxSize())
            case Ok(rest) => o == Pass && self.Now() == old(self.Now()).(trans := rest)
            case Err(e) => o == Fail(e)
    decreases |self.Now().trans|, 0
  {
    var h := self.ReadListBegin();
    if h.Err? {
      return Fail(h.error);
    }
    o := SkipSequence(self, h.value.0, h.value.1, maxDepth - 1);
  }

  method SkipSequence(self: TProtocol, et: TType, size: nat, depth: int) returns (o: Outcome)
    requires self.Now().carried.None?
    modifies self.Obj()
    ensures match SkipElems(self.D(), et, size, old(self.Now()).trans, depth, self.MaxSize())
            case Ok(rest) => o == Pass && self.Now() == old(self.Now()).(trans := rest)
            case Err(e) => o == Fail(e)
    decreases |self.Now().trans|, 2
  {
    ghost var d, before, max := self.D(), self.Now(), self.MaxSize();
    for i := 0 to size
      invariant self.Now() == before.(trans := self.Now().trans)
      invariant SkipElems(d, et, size, before.trans, depth, max)
                == SkipElems(d, et, size - i, self.Now().trans, depth, max)
      invariant |self.Now().trans| <= |before.trans|
    {
      o := Skip(self, et, depth);
      if o.Fail? {
        return;
      }
    }
    return Pass;
  }

  method SkipDefaultDepth(self: TProtocol, t: TType) returns (o: Outcome)
    requires self.Now().carried.Some? ==> t == BOOL
    modifies self.Obj()
    ensures match SkipValue(self.D(), t, old(self.Now()).carried, old(self.Now()).trans, 64,
                            self.MaxSize())
            case Ok(rest) => o == Pass && self.Now() == old(self.Now()).(trans := rest, carried := None)
            case Err(e) => o == Fail(e)
  {
    o := Skip(self, t, DEFAULT_RECURSION_DEPTH);
  }

  // ---------- writing and reading whole values, as generated code does ----------

  /** Writes one value, or the header that carries it when it is the boolean of a pending field. */
  method WriteValue(self: TProtocol, v: Value)
    requires self.Now().pending.Some? ==> v.BoolV?
    modifies self.Obj()
    ensures old(self.Now()).pending.None? ==>
              self.Now() == old(self.Now()).(trans := old(self.Now()).trans + Encode(self.D(), v))
    ensures old(self.Now()).pending.Some? ==>
              var id := old(self.Now()).pending.value;
              self.Now() == old(self.Now()).(
                              trans := old(self.Now()).trans +
                                       FieldHeaderBytes(Compact, BOOL, id, old(self.Now()).lastFieldId, Some(v.b)),
                              lastFieldId := id,
                              pending := None)
    decreases v, 1
  {
    match v
    case StructV(fields) => WriteStruct(self, fields);
    case ListV(et, elems) => WriteElems(self, et, elems);
    case SetV(et, elems) => WriteElems(self, et, elems);
    case MapV(kt, vt, entries) => WriteEntries(self, kt, vt, entries);
    case _ => self.WriteScalar(v);
  }

  method WriteStruct(self: TProtocol, fields: seq<Field>)
    requires self.Now().pending.None?
    modifies self.Obj()
    ensures self.Now() == old(self.Now()).(trans := old(self.Now()).trans + EncodeFields(self.D(), fields, 0))
    decreases fields
  {
    ghost var d, before := self.D(), self.Now();
    self.WriteStructBegin();
    ghost var id: int16 := 0;
    for i := 0 to |fields|
      invariant self.Now() == AfterHeader(d, Entered(d, before), id).(trans := self.Now().trans)
      invariant self.Now().trans + EncodeFields(d, fields[i..], id) == before.trans + EncodeFields(d, fields, 0)
    {
      ghost var sofar := self.Now().trans;
      assert fields[i..][1..] == fields[i + 1..];
      assert EncodeFields(d, fields[i..], id)
          == EncodeField(d, fields[i], id) + EncodeFields(d, fields[i + 1..], fields[i].id);
      WriteField(self, fields[i], id);
      Associate(sofar, EncodeField(d, fields[i], id), EncodeFields(d, fields[i + 1..], fields[i].id));
      id := fields[i].id;
    }
    self.WriteFieldStop();
    LeaveEntered(d, before, id, self.Now().trans);
    var o := self.WriteStructEnd();
  }

  method WriteField(self: TProtocol, f: Field, ghost lastId: int16)
    requires self.Now().pending.None?
    requires self.CompactP? ==> self.Now().lastFieldId == lastId
    modifies self.Obj()
    ensures self.Now() == AfterHeader(self.D(), old(self.Now()), f.id).(
                            trans := old(self.Now()).trans + EncodeField(self.D(), f, lastId))
    decreases f
  {
    ghost var before := self.Now().trans;
    self.WriteFieldBegin(TypeOf(f.value), f.id);
    WriteValue(self, f.value);
    if !(self.CompactP? && f.value.BoolV?) {
      Associate(before, FieldHeaderBytes(self.D(), TypeOf(f.value), f.id, lastId, None), Encode(self.D(), f.value));
    }
  }

  method WriteElems(self: TProtocol, et: TType, elems: seq<Value>)
    requires self.Now().pending.None?
    modifies self.Obj()
    ensures self.Now() == old(self.Now()).(
                            trans := old(self.Now()).trans +
                                     (ListHeaderBytes(self.D(), et, |elems|) + EncodeElems(self.D(), elems)))
    decreases elems
  {
    ghost var d, before := self.D(), self.Now();
    self.WriteCollectionBegin(et, |elems|);
    ghost var start := self.Now().trans;
    for i := 0 to |elems|
      invariant self.Now() == before.(trans := self.Now().trans)
      invariant self.Now().trans + EncodeElems(d, elems[i..]) == start + EncodeElems(d, elems)
    {
      ghost var sofar := self.Now().trans;
      assert elems[i..][1..] == elems[i + 1..];
      WriteValue(self, elems[i]);
      Associate(sofar, Encode(d, elems[i]), EncodeElems(d, elems[i + 1..]));
    }
    Associate(before.trans, ListHeaderBytes(d, et, |elems|), EncodeElems(d, elems));
  }

  method WriteEntries(self: TProtocol, kt: TType, vt: TType, entries: seq<Entry>)
    requires self.Now().pending.None?
    modifies self.Obj()
    ensures self.Now() == old(self.Now()).(
                            trans := old(self.Now()).trans +
                                     (MapHeaderBytes(self.D(), kt, vt, |entries|) + EncodeEntries(self.D(), entries)))
    decreases entries
  {
    ghost var d, before := self.D(), self.Now();
    self.WriteMapBegin(kt, vt, |entries|);
    ghost var start := self.Now().trans;
    for i := 0 to |entries|
      invariant self.Now() == before.(trans := self.Now().trans)
      invariant self.Now().trans + EncodeEntries(d, entries[i..]) == start + EncodeEntries(d, entries)
    {
      ghost var sofar := self.Now().trans;
      assert entries[i..][1..] == entries[i + 1..];
      WriteEntry(self, entries[i]);
      Associate(sofar, EncodeEntry(d, entries[i]), EncodeEntries(d, entries[i + 1..]));
    }
    Associate(before.trans, MapHeaderBytes(d, kt, vt, |entries|), EncodeEntries(d, entries));
  }

  method WriteEntry(self: TProtocol, e: Entry)
    requires self.Now().pending.None?
    modifies self.Obj()
    ensures self.Now() == old(self.Now()).(trans := old(self.Now()).trans + EncodeEntry(self.D(), e))
    decreases e
  {
    ghost var before := self.Now().trans;
    WriteValue(self, e.key);
    WriteValue(self, e.value);
    Associate(before, Encode(self.D(), e.key), Encode(self.D(), e.value));
  }

  /** Reads one value of type `t`; on success the object is otherwise as before. */
  method ReadValue(self: TProtocol, t: TType) returns (r: Result<Value>)
    requires self.Now().carried.Some? ==> t == BOOL
    modifies self.Obj()
    ensures match ReadOutcome(self.D(), t, old(self.Now()).carried, old(self.Now()).trans, self.MaxSize())
            case Ok((v, rest)) => r == Ok(v) && self.Now() == old(self.Now()).(trans := rest, carried := None)
            case Err(e) => r == Err(e)
    decreases |self.Now().trans|, 1
  {
    if IsScalarType(t) {
      r := self.ReadScalar(t);
    } else if t == STRUCT {
      r := ReadStruct(self);
    } else if t == MAP {
      r := ReadMap(self);
    } else if t == SET || t == LIST {
      r := ReadList(self, t);
    } else {
      r := Err(InvalidData);
    }
  }

  function ReadOutcome(d: Dialect, t: TType, carried: Option<bool>, s: seq<byte>, max: nat): Result<(Value,
                                                                                                     seq<byte>)> {
    if carried.Some? then Ok((BoolV(carried.value), s)) else Decode(d, t, s, max)
  }

  /** `whole` is what `tail` gives with `done` put in front. */
  ghost predicate Continues<T>(whole: Result<(seq<T>, seq<byte>)>, done: seq<T>, tail: Result<(seq<T>, seq<byte>)>) {
    match tail
    case Ok((more, rest)) => whole == Ok((done + more, rest))
    case Err(e) => whole == Err(e)
  }

  lemma ContinuesFromNothing<T>(r: Result<(seq<T>, seq<byte>)>)
    ensures Continues(r, [], r)
  {
    if r.Ok? {
      assert [] + r.value.0 == r.value.0;
    }
  }

  lemma ContinuesToEnd<T>(whole: Result<(seq<T>, seq<byte>)>, done: seq<T>, rest: seq<byte>)
    requires Continues(whole, done, Ok(([], rest)))
    ensures whole == Ok((done, rest))
  {
    assert done + [] == done;
  }

  method ReadStruct(self: TProtocol) returns (r: Result<Value>)
    requires self.Now().carried.None?
    modifies self.Obj()
    ensures match Decode(self.D(), STRUCT, old(self.Now()).trans, self.MaxSize())
            case Ok((v, rest)) => r == Ok(v) && self.Now() == old(self.Now()).(trans := rest)
            case Err(e) => r == Err(e)
    decreases |self.Now().trans|, 0
  {
    ghost var d, before, max := self.D(), self.Now(), self.MaxSize();
    self.ReadStructBegin();
    ghost var id: int16 := 0;
    var fields: seq<Field> := [];
    ContinuesFromNothing(DecodeFields(d, before.trans, 0, max));
    while true
      invariant self.Now() == AfterHeader(d, Entered(d, before), id).(trans := self.Now().trans)
      invariant Continues(DecodeFields(d, before.trans, 0, max), fields, DecodeFields(d, self.Now().trans, id, max))
      invariant |self.Now().trans| <= |before.trans|
      decreases |self.Now().trans|
    {
      ghost var s := self.Now().trans;
      FieldHeaderIgnoresId(d, s, id, self.Now().lastFieldId);
      var h := self.ReadFieldBegin();
      if h.Err? {
        return Err(h.error);
      }
      if h.value.0 == STOP {
        break;
      }
      var v := ReadValue(self, h.value.0);
      if v.Err? {
        return Err(v.error);
      }
      ContinueFields(d, before.trans, s, id, Field(h.value.1, v.value), fields, self.Now().trans, max);
      id := h.value.1;
      fields := fields + [Field(h.value.1, v.value)];
    }
    ContinuesToEnd(DecodeFields(d, before.trans, 0, max), fields, self.Now().trans);
    LeaveEntered(d, before, id, self.Now().trans);
    var o := self.ReadStructEnd();
    return Ok(StructV(fields));
  }

  lemma ContinueFields(d: Dialect, from: seq<byte>, s: seq<byte>, id: int, f: Field, done: seq<Field>, rest: seq<byte>,
                       max: nat)
    requires Continues(DecodeFields(d, from, 0, max), done, DecodeFields(d, s, id, max))
    requires var h := TakeFieldHeader(d, s, id);
             h.Ok? && h.value.0.FieldHeader? && h.value.0.id == f.id &&
             ReadOutcome(d, h.value.0.t, h.value.0.carried, h.value.1, max) == Ok((f.value, rest))
    ensures Continues(DecodeFields(d, from, 0, max), done + [f], DecodeFields(d, rest, f.id, max))
  {
    var tail := DecodeFields(d, rest, f.id, max);
    if tail.Ok? {
      Prepend(done, f, tail.value.0);
    }
  }

  method ReadMap(self: TProtocol) returns (r: Result<Value>)
    requires self.Now().carried.None?
    modifies self.Obj()
    ensures match Decode(self.D(), MAP, old(self.Now()).trans, self.MaxSize())
            case Ok((v, rest)) => r == Ok(v) && self.Now() == old(self.Now()).(trans := rest)
            case Err(e) => r == Err(e)
    decreases |self.Now().trans|, 0
  {
    var h := self.ReadMapBegin();
    if h.Err? {
      return Err(h.error);
    }
    var (kt, vt, size) := h.value;
    var entries := ReadEntries(self, kt, vt, size);
    if entries.Err? {
      return Err(entries.error);
    }
    return Ok(MapV(kt, vt, entries.value));
  }

  method ReadEntries(self: TProtocol, kt: TType, vt: TType, size: nat) returns (r: Result<seq<Entry>>)
    requires self.Now().carried.None?
    modifies self.Obj()
    ensures match DecodeEntries(self.D(), kt, vt, size, old(self.Now()).trans, self.MaxSize())
            case Ok((entries, rest)) => r == Ok(entries) && self.Now() == old(self.Now()).(trans := rest)
            case Err(e) => r == Err(e)
    decreases |self.Now().trans|, 2
  {
    ghost var d, before, max := self.D(), self.Now(), self.MaxSize();
    var entries: seq<Entry> := [];
    ContinuesFromNothing(DecodeEntries(d, kt, vt, size, before.trans, max));
    for i := 0 to size
      invariant self.Now() == before.(trans := self.Now().trans)
      invariant Continues(DecodeEntries(d, kt, vt, size, before.trans, max), entries,
                          DecodeEntries(d, kt, vt, size - i, self.Now().trans, max))
      invariant |self.Now().trans| <= |before.trans|
    {
      var k := ReadValue(self, kt);
      if k.Err? {
        return Err(k.error);
      }
      var v := ReadValue(self, vt);
      if v.Err? {
        return Err(v.error);
      }
      ghost var tail := DecodeEntries(d, kt, vt, size - i - 1, self.Now().trans, max);
      if tail.Ok? {
        Prepend(entries, Entry(k.value, v.value), tail.value.0);
      }
      entries := entries + [Entry(k.value, v.value)];
    }
    ContinuesToEnd(DecodeEntries(d, kt, vt, size, before.trans, max), entries, self.Now().trans);
    return Ok(entries);
  }

  lemma Prepend<T>(done: seq<T>, x: T, more: seq<T>)
    ensures done + ([x] + more) == done + [x] + more
  {
  }

  method ReadList(self: TProtocol, t: TType) returns (r: Result<Value>)
    requires self.Now().carried.None? && (t == LIST || t == SET)
    modifies self.Obj()
    ensures match Decode(self.D(), t, old(self.Now()).trans, self.MaxSize())
            case Ok((v, rest)) => r == Ok(v) && self.Now() == old(self.Now()).(trans := rest)
            case Err(e) => r == Err(e)
    decreases |self.Now().trans|, 0
  {
    var h := self.ReadListBegin();
    if h.Err? {
      return Err(h.error);
    }
    var elems := ReadElems(self, h.value.0, h.value.1);
    if elems.Err? {
      return Err(elems.error);
    }
    return Ok(if t == LIST then ListV(h.value.0, elems.value) else SetV(h.value.0, elems.value));
  }

  method ReadElems(self: TProtocol, et: TType, size: nat) returns (r: Result<seq<Value>>)
    requires self.Now().carried.None?
    modifies self.Obj()
    ensures match DecodeElems(self.D(), et, size, old(self.Now()).trans, self.MaxSize())
            case Ok((elems, rest)) => r == Ok(elems) && self.Now() == old(self.Now()).(trans := rest)
            case Err(e) => r == Err(e)
    decreases |self.Now().trans|, 2
  {
    ghost var d, before, max := self.D(), self.Now(), self.MaxSize();
    var elems: seq<Value> := [];
    ContinuesFromNothing(DecodeElems(d, et, size, before.trans, max));
    for i := 0 to size
      invariant self.Now() == before.(trans := self.Now().trans)
      invariant Continues(DecodeElems(d, et, size, before.trans, max), elems,
                          DecodeElems(d, et, size - i, self.Now().trans, max))
      invariant |self.Now().trans| <= |before.trans|
    {
      var v := ReadValue(self, et);
      if v.Err? {
        return Err(v.error);
      }
      ghost var tail := DecodeElems(d, et, size - i - 1, self.Now().trans, max);
      if tail.Ok? {
        Prepend(elems, v.value, tail.value.0);
      }
      elems := elems + [v.value];
    }
    ContinuesToEnd(DecodeElems(d, et, size, before.trans, max), elems, self.Now().trans);
    return Ok(elems);
  }

  /**
   End to end on one protocol object whose transport is drained: the value comes back, the
   transport is empty again, and the field stack, the last field id and both boolean flags are
   as they were.
   */
  method WriteThenRead(self: TProtocol, v: Value) returns (r: Result<Value>)
    requires WellTyped(v, self.MaxSize()) && self.MaxSize() <= MAX_SIZE
    requires self.Now().trans == [] && self.Now().pending.None? && self.Now().carried.None?
    modifies self.Obj()
    ensures r == Ok(Canon(self.D(), v)) && self.Now() == old(self.Now())
  {
    WriteValue(self, v);
    RoundTrip(self.D(), v, [], self.MaxSize());
    assert self.Now().trans == Encode(self.D(), v) + [];
    r := ReadValue(self, TypeOf(v));
  }
}
