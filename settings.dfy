/** `fetchOrUpdateSettings`: the single settings record is read, created from
    the defaults (merged with the overwrite) when there is none, returned as it
    is when the overwrite is empty, and otherwise partially updated. */
module Settings {
  import opened Common

  /** The stored columns of `pomodoro_timer__settings`; the notification sound
      is its media file name. */
  datatype SettingsFields = SettingsFields(
    autoStartBreak: bool,
    autoStartWork: bool,
    workColor: string,
    shortBreakColor: string,
    longBreakColor: string,
    notificationSound: string)

  datatype SettingsRecord = SettingsRecord(id: nat, fields: SettingsFields)

  /** A partial overwrite: a field is either given or absent. */
  datatype Overwrite = Overwrite(
    autoStartBreak: Option<bool>,
    autoStartWork: Option<bool>,
    workColor: Option<string>,
    shortBreakColor: Option<string>,
    longBreakColor: Option<string>,
    notificationSound: Option<string>)

  /** `DEFAULT_SETTINGS`. */
  const DefaultSettings := SettingsFields(false, false, "#fb2c36", "#9ae600", "#00d3f2", "bell.opus")

  const NoOverwrite := Overwrite(None, None, None, None, None, None)

  /** `JSON.stringify(overwrite || {}) === '{}'`: no field is given. */
  predicate IsEmpty(o: Overwrite) {
    o.autoStartBreak.None? && o.autoStartWork.None? && o.workColor.None? &&
    o.shortBreakColor.None? && o.longBreakColor.None? && o.notificationSound.None?
  }

  /** `{...base, ...overwrite}`: every given field replaces the base's. */
  function Merge(base: SettingsFields, o: Overwrite): SettingsFields {
    SettingsFields(
      o.autoStartBreak.GetOr(base.autoStartBreak),
      o.autoStartWork.GetOr(base.autoStartWork),
      o.workColor.GetOr(base.workColor),
      o.shortBreakColor.GetOr(base.shortBreakColor),
      o.longBreakColor.GetOr(base.longBreakColor),
      o.notificationSound.GetOr(base.notificationSound))
  }

  /** An empty overwrite changes nothing, and a second application of the
      same overwrite changes nothing more. */
  lemma MergeNeutralAndIdempotent(base: SettingsFields, o: Overwrite)
    ensures IsEmpty(o) ==> Merge(base, o) == base
    ensures Merge(Merge(base, o), o) == Merge(base, o)
  {
  }

  /** A field the overwrite leaves absent keeps the base's value: defaults are
      never re-applied on update. */
  lemma MergeKeepsAbsentFields(base: SettingsFields, o: Overwrite)
    ensures o.autoStartBreak.None? ==> Merge(base, o).autoStartBreak == base.autoStartBreak
    ensures o.autoStartWork.None? ==> Merge(base, o).autoStartWork == base.autoStartWork
    ensures o.workColor.None? ==> Merge(base, o).workColor == base.workColor
    ensures o.shortBreakColor.None? ==> Merge(base, o).shortBreakColor == base.shortBreakColor
    ensures o.longBreakColor.None? ==> Merge(base, o).longBreakColor == base.longBreakColor
    ensures o.notificationSound.None? ==> Merge(base, o).notificationSound == base.notificationSound
  {
  }

  /** The settings collection: at most one record. `creations` and `writes`
      count the create and update requests issued. */
  class SettingsStore {
    var record: Option<SettingsRecord>
    var nextId: nat
    ghost var creations: nat
    ghost var writes: nat

    /** Only a store that has created a record holds one. */
    ghost predicate Valid()
      reads this
    {
      creations <= 1 && (record.Some? <==> creations == 1)
    }

    constructor ()
      ensures Valid() && record == None && creations == 0 && writes == 0
    {
      record, nextId := None, 0;
      creations, writes := 0, 0;
    }

    method FetchOrUpdate(overwrite: Option<Overwrite>) returns (r: SettingsRecord)
      requires Valid()
      modifies this
      ensures Valid()
      ensures record == Some(r)
      ensures old(record).None? ==>
                && r == SettingsRecord(old(nextId), Merge(DefaultSettings, overwrite.GetOr(NoOverwrite)))
                && creations == old(creations) + 1 && writes == old(writes) + 1
      ensures old(record).Some? && IsEmpty(overwrite.GetOr(NoOverwrite)) ==>
                r == old(record).value && unchanged(this)
      ensures old(record).Some? && !IsEmpty(overwrite.GetOr(NoOverwrite)) ==>
                && r == SettingsRecord(old(record).value.id,
                                       Merge(old(record).value.fields, overwrite.GetOr(NoOverwrite)))
                && creations == old(creations) && writes == old(writes) + 1
                && nextId == old(nextId)
    {
      var o := overwrite.GetOr(NoOverwrite);
      if record.None? {
        r := SettingsRecord(nextId, Merge(DefaultSettings, o));
        record := Some(r);
        nextId := nextId + 1;
        creations := creations + 1;
        writes := writes + 1;
        return;
      }
      if IsEmpty(o) {
        return record.value;
      }
      r := SettingsRecord(record.value.id, Merge(record.value.fields, o));
      record := Some(r);
      writes := writes + 1;
    }
  }

  /** Two fetches without an overwrite create at most one record between
      them, and the second returns the record the first did. */
  method FetchTwice(store: SettingsStore) returns (first: SettingsRecord, second: SettingsRecord)
    requires store.Valid()
    modifies store
    ensures store.Valid()
    ensures first == second
    ensures store.creations <= old(store.creations) + 1
    ensures old(store.record).Some? ==> first == old(store.record).value && store.writes == old(store.writes)
    ensures old(store.record).None? ==> first.fields == DefaultSettings
  {
    first := store.FetchOrUpdate(None);
    second := store.FetchOrUpdate(None);
  }
}
