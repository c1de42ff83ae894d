/**
 The local-storage adapter of the parts inventory: `saveParts` writes the whole
 list to one storage slot, `loadPartsFromStorage` reads it back, accepting the
 legacy bare-array shape and the `{parts, timestamp}` envelope, expiring stale
 envelopes and clearing corrupt data.

 The slot is modelled as its already-parsed contents (`Option<Stored>`, `None`
 when the key is absent); the clock is the parameter `now`.
 */
module Storage {
  import opened Wrappers
  import Seqs

  /** Twenty-four hours in milliseconds: an envelope older than this is stale. */
  const MaxAgeMs: int := 24 * 60 * 60 * 1000

  /** One property of a parsed part object, as `typeof` classifies it. */
  datatype Field =
    | Absent              // the property is missing (`undefined`)
    | Str(s: string)      // `typeof` is 'string'
    | Num(x: real)        // `typeof` is 'number' and the value is finite
    | Null                // `null`
    | Bool(b: bool)       // `true` or `false`
    | Ref(addr: nat)      // an array or a nested object, known only by its identity:
                          // `!==` compares such values by reference

  /** One element of a parsed parts array. */
  datatype Val =
    | Record(id: Field, name: Field, quantity: Field, price: Field, dateUpdated: Field)
    | NonObject           // null or a primitive: never a valid part

  /** The parsed contents of a present storage slot. */
  datatype Stored =
    | Blank                                              // the empty string: falsy, read as absent
    | Corrupt                                            // `JSON.parse` throws
    | Arr(items: seq<Val>)                               // legacy shape: a bare array
    | Obj(parts: Option<seq<Val>>, timestamp: Option<real>)
      // any other object; `parts` is None unless the property is an array,
      // `timestamp` is None unless it is a finite number
    | Other                                              // null, a number, a string or a boolean

  /** The part filter of the envelope path: string id and name, non-negative numeric quantity and price. */
  predicate ValidPart(v: Val)
  {
    && v.Record?
    && v.id.Str?
    && v.name.Str?
    && v.quantity.Num?
    && v.price.Num?
    && v.quantity.x >= 0.0
    && v.price.x >= 0.0
  }

  /** The stored value is the current envelope shape: an object whose `parts` is an array. */
  predicate IsEnvelope(s: Stored)
  {
    s.Obj? && s.parts.Some?
  }

  /**
   An envelope is expired when its timestamp is truthy (present and non-zero)
   and more than a day older than `now`.
   */
  predicate Expired(timestamp: Option<real>, now: int)
  {
    timestamp.Some? && timestamp.value != 0.0 && now as real - timestamp.value > MaxAgeMs as real
  }

  /** The argument handed to `saveParts`, as `Array.isArray` sees it. */
  datatype Payload = ArrayArg(items: seq<Val>) | NonArrayArg

  /** Whether the save resolved, and the slot afterwards. */
  datatype Saved = Saved(ok: bool, slot: Option<Stored>)

  /**
   `saveParts`: an array is written to the slot as a bare array, replacing
   whatever was there; a non-array, or a write the store refuses
   (`writeFails`), rejects and leaves the slot as it was.
   */
  function Save(arg: Payload, slot: Option<Stored>, writeFails: bool): (r: Saved)
    ensures r.ok <==> arg.ArrayArg? && !writeFails
    ensures !r.ok ==> r.slot == slot
    ensures r.ok ==> r.slot == Some(Arr(arg.items))
  {
    if !arg.ArrayArg? then Saved(false, slot)
    else if writeFails then Saved(false, slot)
    else Saved(true, Some(Arr(arg.items)))
  }

  /** The parts the loader returns, and the slot afterwards (None once cleared). */
  datatype Loaded = Loaded(parts: seq<Val>, slot: Option<Stored>)

  /**
   `loadPartsFromStorage` on readable storage: it never fails, because the
   `catch` turns a parse error into a cleared slot. (Storage that throws on
   access is the `readFails` case of `Inventory.Mount`.) The slot is never rewritten,
   only cleared, and it is cleared exactly for corrupt data and expired
   envelopes, which then yield nothing.
   */
  function Load(slot: Option<Stored>, now: int): (r: Loaded)
    ensures (slot.None? || slot.value.Blank?) ==> r == Loaded([], slot)
    ensures r.slot == slot || r.slot == None
    ensures r.slot != slot <==>
              slot.Some? && (slot.value.Corrupt? ||
                             (IsEnvelope(slot.value) && Expired(slot.value.timestamp, now)))
    ensures r.slot != slot ==> r.parts == []
    ensures slot.Some? && slot.value.Arr? ==> r.parts == slot.value.items
    ensures slot.Some? && IsEnvelope(slot.value) && !Expired(slot.value.timestamp, now) ==>
              Seqs.IsSubseq(r.parts, slot.value.parts.value) &&
              forall v :: v in slot.value.parts.value ==> (v in r.parts <==> ValidPart(v))
    ensures !(slot.Some? && slot.value.Arr?) ==> forall v :: v in r.parts ==> ValidPart(v)
    ensures slot.Some? && !slot.value.Arr? && !IsEnvelope(slot.value) ==> r.parts == []
  {
    match slot
    case None => Loaded([], slot)
    case Some(stored) =>
      match stored
      case Blank => Loaded([], slot)
      case Corrupt => Loaded([], None)
      case Arr(items) => Loaded(items, slot)
      case Other => Loaded([], slot)
      case Obj(parts, timestamp) =>
        if parts.None? then Loaded([], slot)
        else if Expired(timestamp, now) then Loaded([], None)
        else
          Seqs.FilterIsSubseq(ValidPart, parts.value);
          Loaded(Seqs.Filter(ValidPart, parts.value), slot)
  }

  /** Round trip: whatever list a successful save writes, the next load returns unchanged, unfiltered. */
  lemma SaveLoadRoundTrip(ps: seq<Val>, slot: Option<Stored>, now: int)
    ensures Save(ArrayArg(ps), slot, false).ok
    ensures Load(Save(ArrayArg(ps), slot, false).slot, now) == Loaded(ps, Some(Arr(ps)))
  {
  }

  /** A save overwrites: the slot afterwards does not depend on what it held before. */
  lemma SaveOverwrites(arg: Payload, s1: Option<Stored>, s2: Option<Stored>)
    requires arg.ArrayArg?
    ensures Save(arg, s1, false).slot == Save(arg, s2, false).slot
  {
  }

  /** A rejected save never touches the slot, whatever it held. */
  lemma RejectedSaveKeepsSlot(slot: Option<Stored>, writeFails: bool)
    ensures !Save(NonArrayArg, slot, writeFails).ok
    ensures Save(NonArrayArg, slot, writeFails).slot == slot
  {
  }

  /** The expiry boundary: exactly one day old is still fresh; a missing or zero timestamp never expires. */
  lemma ExpiryBoundary(ts: real, now: int)
    ensures ts != 0.0 ==> (Expired(Some(ts), now) <==> now as real - ts > 86_400_000.0)
    ensures now as real - ts == 86_400_000.0 ==> !Expired(Some(ts), now)
    ensures now as real - ts == 86_400_000.5 && ts != 0.0 ==> Expired(Some(ts), now)
    ensures !Expired(None, now) && !Expired(Some(0.0), now)
  {
  }

  /** A fresh envelope yields exactly its valid parts, in their stored order. */
  lemma {:induction false} FreshEnvelopeFilters(ps: seq<Val>, ts: Option<real>, now: int)
    requires !Expired(ts, now)
    ensures Load(Some(Obj(Some(ps), ts)), now).parts == Seqs.Filter(ValidPart, ps)
    ensures Load(Some(Obj(Some(ps), ts)), now).parts == ps <==> Seqs.All(ValidPart, ps)
  {
    Seqs.FilterAllIdentity(ValidPart, ps);
  }

  /** Appending records to a fresh envelope appends their valid ones to the load result. */
  lemma {:induction false} FreshEnvelopeAppend(ps: seq<Val>, qs: seq<Val>, ts: Option<real>, now: int)
    requires !Expired(ts, now)
    ensures Load(Some(Obj(Some(ps + qs), ts)), now).parts ==
            Load(Some(Obj(Some(ps), ts)), now).parts + Load(Some(Obj(Some(qs), ts)), now).parts
  {
    FreshEnvelopeFilters(ps + qs, ts, now);
    FreshEnvelopeFilters(ps, ts, now);
    FreshEnvelopeFilters(qs, ts, now);
    Seqs.FilterAppend(ValidPart, ps, qs);
  }

  /** An envelope saved 25 hours ago is cleared and yields nothing; one saved 23 hours ago yields its valid records. */
  lemma {:induction false} ExpiryExamples(ps: seq<Val>, now: int)
    requires now > 25 * 3_600_000
    requires Seqs.All(ValidPart, ps)
    ensures Load(Some(Obj(Some(ps), Some((now - 25 * 3_600_000) as real))), now) == Loaded([], None)
    ensures var young := Some(Obj(Some(ps), Some((now - 23 * 3_600_000) as real)));
            Load(young, now) == Loaded(ps, young)
  {
    FreshEnvelopeFilters(ps, Some((now - 23 * 3_600_000) as real), now);
  }

  /** A record with a negative quantity is dropped; the valid record beside it survives. */
  lemma ValidationExample(good: Val, now: int)
    requires ValidPart(good)
    ensures var bad := good.(quantity := Num(-1.0));
            Load(Some(Obj(Some([bad, good]), None)), now).parts == [good]
  {
    var bad := good.(quantity := Num(-1.0));
    assert Seqs.Filter(ValidPart, [bad, good]) == Seqs.Filter(ValidPart, [good]) by {
      assert [bad, good][1..] == [good];
    }
    assert Seqs.Filter(ValidPart, [good]) == [good] by {
      assert [good][1..] == [];
    }
  }
}
