/**
 The inventory controller: the in-memory parts list, the `saving` and
 `hasUnsavedChanges` (`dirty`) flags, the initial load, and the add, remove
 and save handlers, as pure transitions. The generated id of a new part and
 whether the store accepts a write are parameters.
 */
module Inventory {
  import opened Wrappers
  import Seqs
  import Storage

  type Val = Storage.Val

  datatype AppState = AppState(parts: seq<Val>, loading: bool, saving: bool, dirty: bool)

  /** The state before the initial load has run. */
  const Mounting: AppState := AppState([], true, false, false)

  /** The form's input: a part without its id. */
  datatype Draft = Draft(name: string, quantity: real, price: real, dateUpdated: Option<string>)

  /** The hardcoded sample inventory served by `getParts`. */
  function SeedParts(): (r: seq<Val>)
    ensures |r| == 15
  {
    [ SeedPart("1", "Engine Oil Filter", 50.0, 12.99),
      SeedPart("2", "Brake Pads", 25.0, 45.50),
      SeedPart("3", "Air Filter", 40.0, 18.75),
      SeedPart("4", "Spark Plug", 100.0, 8.99),
      SeedPart("5", "Fuel Pump", 10.0, 120.00),
      SeedPart("6", "Radiator", 8.0, 220.00),
      SeedPart("7", "Headlight Bulb", 60.0, 14.50),
      SeedPart("8", "Brake Fluid", 30.0, 9.99),
      SeedPart("9", "Timing Belt", 15.0, 75.00),
      SeedPart("10", "Alternator", 5.0, 250.00),
      SeedPart("11", "Battery", 12.0, 180.00),
      SeedPart("12", "Clutch Kit", 7.0, 350.00),
      SeedPart("13", "Wheel Bearing", 20.0, 55.00),
      SeedPart("14", "Oil Pan Gasket", 35.0, 11.50),
      SeedPart("15", "CV Joint", 18.0, 65.00) ]
  }

  function SeedPart(id: string, name: string, quantity: real, price: real): Val
  {
    Storage.Record(Storage.Str(id), Storage.Str(name), Storage.Num(quantity), Storage.Num(price), Storage.Absent)
  }

  /** The `id` property of a list element (`undefined` for a primitive). */
  function IdOf(v: Val): (f: Storage.Field)
    ensures v.Record? ==> f == v.id
  {
    if v.Record? then v.id else Storage.Absent
  }

  /** No two records in the list share an id. */
  predicate UniqueIds(ps: seq<Val>)
  {
    forall i, j :: 0 <= i < j < |ps| ==> IdOf(ps[i]) != IdOf(ps[j])
  }

  /** Every seed record passes the storage validator. */
  lemma SeedValid()
    ensures Seqs.All(Storage.ValidPart, SeedParts())
  {
  }

  /** The seed ids are distinct. */
  lemma SeedUniqueIds()
    ensures UniqueIds(SeedParts())
  {
    var ps := SeedParts();
    forall i, j | 0 <= i < j < |ps| ensures IdOf(ps[i]) != IdOf(ps[j]) {
      var a := IdOf(ps[i]).s;
      var b := IdOf(ps[j]).s;
      if |a| == |b| {
        assert a[|a| - 1] != b[|b| - 1] || a[0] != b[0];
      }
    }
  }

  /**
   The initial load. `readFails` says that storage itself cannot be
   accessed (storage disabled or blocked): `getItem` then throws, and so
   does the `removeItem` in the loader's own `catch`, so the loader throws,
   the app's `catch` ends loading and the list stays at its initial empty
   value. Otherwise the list is the parts stored locally when there are
   any, and the seed list when there are none. Returns the state and the
   slot afterwards.
   */
  function Mount(slot: Option<Storage.Stored>, now: int, readFails: bool): (r: (AppState, Option<Storage.Stored>))
    ensures !r.0.loading && !r.0.saving && !r.0.dirty
    ensures readFails ==> r.0.parts == [] && r.1 == slot
    ensures !readFails ==> r.1 == Storage.Load(slot, now).slot
    ensures !readFails && Storage.Load(slot, now).parts != [] ==> r.0.parts == Storage.Load(slot, now).parts
    ensures !readFails && Storage.Load(slot, now).parts == [] ==> r.0.parts == SeedParts()
    ensures r.0.parts != [] <==> !readFails
  {
    if readFails then
      (Mounting.(loading := false), slot)
    else
      var loaded := Storage.Load(slot, now);
      var parts := if |loaded.parts| > 0 then loaded.parts else SeedParts();
      (Mounting.(parts := parts, loading := false), loaded.slot)
  }

  /** The record built from a draft and a generated id. */
  function WithId(d: Draft, id: string): (v: Val)
    ensures Storage.ValidPart(v) <==> d.quantity >= 0.0 && d.price >= 0.0
    ensures IdOf(v) == Storage.Str(id)
    ensures v.Record? && v.name == Storage.Str(d.name)
    ensures v.quantity == Storage.Num(d.quantity) && v.price == Storage.Num(d.price)
    ensures d.dateUpdated.Some? ==> v.dateUpdated == Storage.Str(d.dateUpdated.value)
    ensures d.dateUpdated.None? ==> v.dateUpdated == Storage.Absent
  {
    Storage.Record(
      Storage.Str(id), Storage.Str(d.name), Storage.Num(d.quantity), Storage.Num(d.price),
      if d.dateUpdated.Some? then Storage.Str(d.dateUpdated.value) else Storage.Absent)
  }

  /** `handleAddPart`: appends one record with the fresh id at the end and marks the list unsaved. */
  function AddPart(s: AppState, d: Draft, freshId: string): (r: AppState)
    ensures |r.parts| == |s.parts| + 1
    ensures r.parts[..|s.parts|] == s.parts
    ensures r.parts[|s.parts|] == WithId(d, freshId)
    ensures r.dirty && r.saving == s.saving && r.loading == s.loading
  {
    s.(parts := s.parts + [WithId(d, freshId)], dirty := true)
  }

  /** Keeps the records whose id differs from `target`. */
  function KeepsOtherIds(target: Storage.Field): Val -> bool
  {
    v => IdOf(v) != target
  }

  /** `handleRemovePart`: drops every record with the removed part's id and marks the list unsaved. */
  function RemovePart(s: AppState, removed: Val): (r: AppState)
    ensures |r.parts| <= |s.parts|
    ensures forall v :: v in r.parts <==> v in s.parts && IdOf(v) != IdOf(removed)
    ensures forall v :: multiset(r.parts)[v] == if IdOf(v) != IdOf(removed) then multiset(s.parts)[v] else 0
    ensures Seqs.IsSubseq(r.parts, s.parts)
    ensures r.dirty && r.saving == s.saving && r.loading == s.loading
  {
    Seqs.FilterIsSubseq(KeepsOtherIds(IdOf(removed)), s.parts);
    Seqs.FilterMultiset(KeepsOtherIds(IdOf(removed)), s.parts);
    s.(parts := Seqs.Filter(KeepsOtherIds(IdOf(removed)), s.parts), dirty := true)
  }

  /** Ids are compared with `!==`: removing the part whose id is `true` keeps a part whose id is `null`. */
  lemma RemoveKeepsNullIdForTrueId(s: AppState, a: Val, b: Val)
    requires a.Record? && a.id == Storage.Null
    requires b.Record? && b.id == Storage.Bool(true)
    requires s.parts == [a, b]
    ensures RemovePart(s, b).parts == [a]
  {
    var keep := KeepsOtherIds(IdOf(b));
    assert keep(a) && !keep(b);
    assert [a, b][1..] == [b];
    assert [b][1..] == [];
    assert Seqs.Filter(keep, [b]) == [];
  }

  /** Object ids are compared by identity: an equal-looking but distinct object id does not match. */
  lemma RemoveComparesObjectIdsByIdentity(s: AppState, a: Val, b: Val)
    requires a.Record? && a.id == Storage.Ref(1)
    requires b.Record? && b.id == Storage.Ref(2)
    requires s.parts == [a]
    ensures RemovePart(s, b).parts == [a]
  {
    var keep := KeepsOtherIds(IdOf(b));
    assert keep(a);
    assert [a][1..] == [];
  }

  /** Adding a record whose id is new keeps the ids unique. */
  lemma AddKeepsUniqueIds(s: AppState, d: Draft, freshId: string)
    requires UniqueIds(s.parts)
    requires forall v :: v in s.parts ==> IdOf(v) != Storage.Str(freshId)
    ensures UniqueIds(AddPart(s, d, freshId).parts)
  {
    var r := AddPart(s, d, freshId).parts;
    forall i, j | 0 <= i < j < |r| ensures IdOf(r[i]) != IdOf(r[j]) {
      if j == |s.parts| {
        assert r[i] == s.parts[i];
      } else {
        assert r[i] == s.parts[i] && r[j] == s.parts[j];
      }
    }
  }

  /** Removing an id no record carries leaves the list as it was (only the flag changes). */
  lemma {:induction false} RemoveAbsentIsIdentity(s: AppState, removed: Val)
    requires forall v :: v in s.parts ==> IdOf(v) != IdOf(removed)
    ensures RemovePart(s, removed).parts == s.parts
  {
    assert Seqs.All(KeepsOtherIds(IdOf(removed)), s.parts) by {
      forall i | 0 <= i < |s.parts| ensures KeepsOtherIds(IdOf(removed))(s.parts[i]) {
        assert s.parts[i] in s.parts;
      }
    }
    Seqs.FilterAllIdentity(KeepsOtherIds(IdOf(removed)), s.parts);
  }

  /** Removing keeps the ids unique. */
  lemma RemoveKeepsUniqueIds(s: AppState, removed: Val)
    requires UniqueIds(s.parts)
    ensures UniqueIds(RemovePart(s, removed).parts)
  {
    SubseqKeepsUniqueIds(RemovePart(s, removed).parts, s.parts);
  }

  /** A subsequence of a list with unique ids has unique ids. */
  lemma {:induction false} SubseqKeepsUniqueIds(a: seq<Val>, b: seq<Val>)
    requires Seqs.IsSubseq(a, b)
    requires UniqueIds(b)
    ensures UniqueIds(a)
    decreases |b|
  {
    if a != [] && b != [] {
      assert UniqueIds(b[1..]) by {
        forall i, j | 0 <= i < j < |b| - 1 ensures IdOf(b[1..][i]) != IdOf(b[1..][j]) {
          assert b[1..][i] == b[i + 1] && b[1..][j] == b[j + 1];
        }
      }
      if a[0] == b[0] {
        SubseqKeepsUniqueIds(a[1..], b[1..]);
        forall k | 0 < k < |a| ensures IdOf(a[0]) != IdOf(a[k]) {
          assert a[k] == a[1..][k - 1];
          SubseqMember(a[1..], b[1..], k - 1);
          var m :| 0 <= m < |b[1..]| && b[1..][m] == a[k];
          assert b[m + 1] == a[k];
        }
        forall i, j | 0 <= i < j < |a| ensures IdOf(a[i]) != IdOf(a[j]) {
          if i > 0 {
            assert a[i] == a[1..][i - 1] && a[j] == a[1..][j - 1];
          }
        }
      } else {
        SubseqKeepsUniqueIds(a, b[1..]);
      }
    }
  }

  /** Every element of a subsequence occurs in the sequence. */
  lemma {:induction false} SubseqMember(a: seq<Val>, b: seq<Val>, k: nat)
    requires Seqs.IsSubseq(a, b)
    requires k < |a|
    ensures exists m :: 0 <= m < |b| && b[m] == a[k]
    decreases |b|
  {
    assert b != [];
    if a[0] == b[0] {
      if k == 0 {
        assert b[0] == a[0];
      } else {
        SubseqMember(a[1..], b[1..], k - 1);
        var m :| 0 <= m < |b[1..]| && b[1..][m] == a[1..][k - 1];
        assert b[m + 1] == a[k];
      }
    } else {
      SubseqMember(a, b[1..], k);
      var m :| 0 <= m < |b[1..]| && b[1..][m] == a[k];
      assert b[m + 1] == a[k];
    }
  }

  /** A pending save: the state while `saveParts` is awaited, the slot it wrote, and how it will settle. */
  datatype SaveStarted = SaveStarted(app: AppState, slot: Option<Storage.Stored>, ok: bool)

  /**
   The click on the save button. While a save is in flight the button is
   disabled and the click does nothing (None). Otherwise `saving` goes up and
   `saveParts` runs on the current list, writing the slot synchronously.
   */
  function BeginSave(s: AppState, slot: Option<Storage.Stored>, writeFails: bool): (r: Option<SaveStarted>)
    ensures s.saving <==> r.None?
    ensures r.Some? ==> r.value.app == s.(saving := true)
    ensures r.Some? ==> (r.value.ok <==> !writeFails)
    ensures r.Some? && r.value.ok ==> r.value.slot == Some(Storage.Arr(s.parts))
    ensures r.Some? && !r.value.ok ==> r.value.slot == slot
  {
    if s.saving then None
    else
      var saved := Storage.Save(Storage.ArrayArg(s.parts), slot, writeFails);
      Some(SaveStarted(s.(saving := true), saved.slot, saved.ok))
  }

  /**
   The settled save, as written: success clears `dirty`, failure keeps it,
   `saving` drops either way. The list may have changed meanwhile.
   */
  function FinishSave(s: AppState, ok: bool): (r: AppState)
    ensures !r.saving
    ensures ok ==> !r.dirty
    ensures !ok ==> r.dirty == s.dirty
    ensures r.parts == s.parts && r.loading == s.loading
  {
    s.(saving := false, dirty := if ok then false else s.dirty)
  }

  /**
   The settled save, corrected: `dirty` is cleared only when the list is still
   the one that was written.
   */
  function FinishSaveChecked(s: AppState, written: seq<Val>, ok: bool): (r: AppState)
    ensures !r.saving
    ensures r.dirty == (s.dirty && !(ok && s.parts == written))
    ensures !s.dirty || r.dirty || s.parts == written
    ensures r.parts == s.parts && r.loading == s.loading
  {
    s.(saving := false, dirty := if ok && s.parts == written then false else s.dirty)
  }

  /** When nothing happens while the save is awaited, the two versions agree. */
  lemma FinishSaveAgreesWithoutInterleaving(s: AppState, ok: bool)
    ensures FinishSaveChecked(s, s.parts, ok) == FinishSave(s, ok)
  {
  }

  /** The whole save handler with no other event during the wait. */
  function HandleSave(s: AppState, slot: Option<Storage.Stored>, writeFails: bool): (r: (AppState, Option<Storage.Stored>))
    ensures s.saving ==> r == (s, slot)
    ensures !s.saving ==> !r.0.saving && r.0.parts == s.parts && r.0.loading == s.loading
    ensures !s.saving ==> r.0.dirty == (s.dirty && writeFails)
    ensures !s.saving && !writeFails ==> r.1 == Some(Storage.Arr(s.parts))
    ensures !s.saving && writeFails ==> r.1 == slot
  {
    match BeginSave(s, slot, writeFails)
    case None => (s, slot)
    case Some(started) =>
      (FinishSave(started.app, started.ok), started.slot)
  }

  /**
   As written, a part added while a save is in flight is reported as saved:
   the flag is cleared, yet the slot holds the list without the new part.
   */
  lemma AddDuringSaveLosesDirtyFlag(d: Draft, freshId: string, now: int)
    ensures var (s0, slot0) := Mount(None, now, false);
            var started := BeginSave(s0, slot0, false).value;
            var s1 := AddPart(started.app, d, freshId);
            var s2 := FinishSave(s1, started.ok);
            && !s2.dirty
            && Storage.Load(started.slot, now).parts != s2.parts
  {
    var (s0, slot0) := Mount(None, now, false);
    var started := BeginSave(s0, slot0, false).value;
    var s1 := AddPart(started.app, d, freshId);
    assert |Storage.Load(started.slot, now).parts| == |s0.parts| < |s1.parts|;
  }

  /** Corrected, the same interleaving leaves the list marked unsaved. */
  lemma AddDuringSaveKeepsDirtyFlag(s: AppState, slot: Option<Storage.Stored>, d: Draft, freshId: string)
    requires !s.saving
    ensures var started := BeginSave(s, slot, false).value;
            FinishSaveChecked(AddPart(started.app, d, freshId), s.parts, started.ok).dirty
  {
    var started := BeginSave(s, slot, false).value;
    assert |AddPart(started.app, d, freshId).parts| != |s.parts|;
  }

  /** After a save that went through, a reload shows exactly the saved list (when it is non-empty). */
  lemma SaveThenReload(s: AppState, slot: Option<Storage.Stored>, now: int)
    requires !s.saving && s.parts != []
    ensures var (saved, slot1) := HandleSave(s, slot, false);
            Mount(slot1, now, false).0.parts == saved.parts == s.parts
  {
  }

  /** Saving an empty list and reloading brings the seed list back. */
  lemma EmptySaveReloadsSeed(s: AppState, slot: Option<Storage.Stored>, now: int)
    requires !s.saving && s.parts == []
    ensures Mount(HandleSave(s, slot, false).1, now, false).0.parts == SeedParts()
  {
  }

  /** Add a part, remove a different one, save and reload: the list is the old one plus the new part, minus the removed one. */
  lemma AddRemoveSaveReload(s: AppState, slot: Option<Storage.Stored>, d: Draft, freshId: string, removed: Val, now: int)
    requires !s.saving
    requires IdOf(removed) != Storage.Str(freshId)
    ensures var s2 := RemovePart(AddPart(s, d, freshId), removed);
            var (s3, slot3) := HandleSave(s2, slot, false);
            Mount(slot3, now, false).0.parts ==
              Seqs.Filter(KeepsOtherIds(IdOf(removed)), s.parts + [WithId(d, freshId)])
  {
    var s2 := RemovePart(AddPart(s, d, freshId), removed);
    assert WithId(d, freshId) in s2.parts;
    SaveThenReload(s2, slot, now);
  }

  /** The same scenario starting from empty storage: the seed list plus the new part, minus the removed one. */
  lemma SeedAddRemoveSaveReload(d: Draft, freshId: string, removed: Val, now: int, later: int)
    requires IdOf(removed) != Storage.Str(freshId)
    ensures var (s0, slot0) := Mount(None, now, false);
            var s2 := RemovePart(AddPart(s0, d, freshId), removed);
            var (s3, slot3) := HandleSave(s2, slot0, false);
            Mount(slot3, later, false).0.parts ==
              Seqs.Filter(KeepsOtherIds(IdOf(removed)), SeedParts() + [WithId(d, freshId)])
  {
    var (s0, slot0) := Mount(None, now, false);
    assert s0.parts == SeedParts();
    AddRemoveSaveReload(s0, slot0, d, freshId, removed, later);
  }
}
