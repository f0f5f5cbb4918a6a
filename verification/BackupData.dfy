/**
 No data is left behind.

 On a FileStorage, what can be restored is exactly what is listed.
 */
module BackupData {
  import opened Common
  import opened Types
  import opened Text
  import opened Storage
  import opened Backups
  import opened BackupSafety
  import opened BackupRuns

  /** There is no data for a backup outside the vault. */
  ghost predicate NoOtherData(s: State, v: Vault) {
    forall t: nat :: t !in v ==> PlacesIn(s.store.backend, s.formats).data(t) !in s.store.data
  }

  /** The storage determines which backups its vault has. */
  lemma SameBackups(s: State, u: Vault, v: Vault)
    requires Holds(s, u) && Holds(s, v)
    ensures u.Keys == v.Keys
  {
    VaultWithin(s, u, v);
    VaultWithin(s, v, u);
  }

  lemma VaultWithin(s: State, u: Vault, v: Vault)
    requires Holds(s, u) && Holds(s, v)
    ensures u.Keys <= v.Keys
  {
    var p := PlacesIn(s.store.backend, s.formats);
    forall t | t in u.Keys ensures t in v.Keys {
      assert IsMetaIn(s.store.backend)(p.meta(t));
      var w :| w in v && p.meta(w) == p.meta(t);
    }
  }

  lemma WrittenAddsOnlyItsData(s: State, v: Vault, t: nat, description: string)
    requires WellPlaced(s.store.backend, s.formats) && NoOtherData(s, v)
    ensures NoOtherData(s.(store := Written(s, t, description)), v[t := Saved(description, s.config)])
  {
    var p, v' := PlacesIn(s.store.backend, s.formats), v[t := Saved(description, s.config)];
    forall u: nat | u !in v' ensures p.data(u) !in Written(s, t, description).data {
      OtherPlaces(p, t, u);
    }
  }

  lemma {:induction false} EvictionLeavesNoData(s: State, v: Vault, victims: seq<BackupInfo>)
    requires WellPlaced(s.store.backend, s.formats) && NoOtherData(s, v)
    requires forall info :: info in victims ==> info.id == BackupId(s.formats, info.timestamp)
    ensures Evict(s.store, victims).backend == s.store.backend
    ensures NoOtherData(s.(store := Evict(s.store, victims)), v - Times(victims))
    decreases |victims|
  {
    if victims == [] {
      assert v - Times(victims) == v;
    } else {
      var init, last := victims[..|victims| - 1], victims[|victims| - 1];
      assert last in victims && victims == init + [last];
      EvictionLeavesNoData(s, v, init);
      TimesSnoc(v, init, last);
      OneLessWithData(s.(store := Evict(s.store, init)), v - Times(init), last.timestamp);
    }
  }

  lemma OneLessWithData(s: State, v: Vault, t: nat)
    requires NoOtherData(s, v)
    ensures var id := BackupId(s.formats, t);
            NoOtherData(s.(store := s.store.Remove(DataKey(id)).Remove(MetaDeleteKey(id))), v - {t})
  {
  }

  lemma CleanupLeavesNoData(s: State, v: Vault, infos: seq<BackupInfo>, m: int, kept: Vault)
    requires Holds(s, v) && NoOtherData(s, v) && (m > 0 ==> IsListing(s.store, infos))
    requires Holds(s.(store := Evict(s.store, BeyondLimit(infos, m))), kept)
    ensures NoOtherData(s.(store := Evict(s.store, BeyondLimit(infos, m))), kept)
  {
    var victims := BeyondLimit(infos, m);
    if m > 0 {
      ListingShowsVault(s, v, infos);
      forall info | info in victims ensures info.id == BackupId(s.formats, info.timestamp) {
        assert info in infos && InfoOf(s, v, info);
      }
    }
    EvictionLeavesNoData(s, v, victims);
    EvictionRemoves(s, v, victims);
    SameBackups(s.(store := Evict(s.store, victims)), kept, v - Times(victims));
  }

  lemma CreateLeavesNoData(s: State, u: Vault, t: nat, description: string, w: Writes, s': State, infos: seq<BackupInfo>, v: Vault)
    requires Holds(s, u) && Before(u, t) && NoOtherData(s, u) && Creates(s, t, description, w, s', infos) && Holds(s', v)
    ensures NoOtherData(s', v)
  {
    if w.data && w.meta {
      WrittenHolds(s, u, t, description);
      WrittenAddsOnlyItsData(s, u, t, description);
      CleanupLeavesNoData(s.(store := Written(s, t, description)), u[t := Saved(description, s.config)], infos,
                          s.config.settings.maxBackups, v);
    } else {
      FailedCreateKeepsVault(s, u, t, description, w, s', infos);
      SameBackups(s', u, v);
    }
  }

  lemma SaveLeavesNoData(s: State, v: Vault)
    requires Holds(s, v) && NoOtherData(s, v)
    ensures NoOtherData(s.Saved(), v)
  {
  }

  lemma EventLeavesNoData(s: State, u: Vault, entry: Entry, s': State, v: Vault)
    requires Holds(s, u) && Before(u, entry.time) && NoOtherData(s, u) && Happens(s, entry, s') && Holds(s', v)
    ensures NoOtherData(s', v)
  {
    match entry.event
    case Create(description) =>
      var infos :| Creates(s, entry.time, description, entry.writes, s', infos);
      CreateLeavesNoData(s, u, entry.time, description, entry.writes, s', infos, v);
    case Restore(id) => RestoreLeavesNoData(s, u, id, entry, s', v);
    case SetConfig(config) => SettingLeavesNoData(s, u, config, entry.writes.save, s', v);
  }

  lemma SettingLeavesNoData(s: State, u: Vault, config: Config, saved: bool, s': State, v: Vault)
    requires Holds(s, u) && NoOtherData(s, u) && Holds(s', v)
    requires s' == if saved then s.(config := config).Saved() else s.(config := config)
    ensures NoOtherData(s', v)
  {
    SaveKeepsVault(s.(config := config), u);
    SaveLeavesNoData(s.(config := config), u);
    SameBackups(s', u, v);
  }

  lemma RestoreLeavesNoData(s: State, u: Vault, id: string, entry: Entry, s': State, v: Vault)
    requires Holds(s, u) && Before(u, entry.time) && NoOtherData(s, u) && Happens(s, entry, s') && Holds(s', v)
    requires entry.event == Restore(id)
    ensures NoOtherData(s', v)
  {
    var infos :| Restores(s, id, entry.time, entry.writes, s', infos);
    var found := Restorable(s.store, id);
    if found.None? {
      SameBackups(s', u, v);
    } else {
      var mid :| Creates(s, entry.time, SAFETY, entry.writes, mid, infos) &&
        var restored := mid.(config := found.value);
        s' == if entry.writes.save then restored.Saved() else restored;
      var between := CreateKeepsVault(s, u, entry.time, SAFETY, entry.writes, mid, infos);
      CreateLeavesNoData(s, u, entry.time, SAFETY, entry.writes, mid, infos, between);
      SaveKeepsVault(mid.(config := found.value), between);
      SaveLeavesNoData(mid.(config := found.value), between);
      SameBackups(s', between, v);
    }
  }

  // ---- Over runs ----

  ghost predicate HeldAlone(states: seq<State>, log: seq<Entry>, n: nat, v: Vault) {
    HeldAfter(states, log, n, v) && NoOtherData(states[n], v)
  }

  ghost predicate SomeHeldAlone(states: seq<State>, log: seq<Entry>, n: nat) {
    exists v :: HeldAlone(states, log, n, v)
  }

  lemma StartsAlone(states: seq<State>, log: seq<Entry>)
    requires IsRun(states, log) && StartsOnEmptyFiles(states[0])
    ensures SomeHeldAlone(states, log, 0)
  {
    FilesAreWellPlaced(states[0].store.backend.base, states[0].formats);
    var none: Vault := map[];
    assert HeldAlone(states, log, 0, none);
  }

  lemma NextAlone(states: seq<State>, log: seq<Entry>, n: nat, u: Vault) returns (v: Vault)
    requires IsRun(states, log) && n < |log| && HeldAlone(states, log, n, u)
    ensures HeldAlone(states, log, n + 1, v)
  {
    v := RunStep(states, log, n, u);
    assert Happens(states[n], log[n], states[n + 1]);
    EventLeavesNoData(states[n], u, log[n], states[n + 1], v);
  }

  lemma StepLeavesNoData(states: seq<State>, log: seq<Entry>, n: nat)
    requires IsRun(states, log) && n < |log| && SomeHeldAlone(states, log, n)
    ensures SomeHeldAlone(states, log, n + 1)
  {
    var u :| HeldAlone(states, log, n, u);
    var v := NextAlone(states, log, n, u);
  }

  lemma RunLeavesNoData(states: seq<State>, log: seq<Entry>, n: nat)
    requires IsRun(states, log) && StartsOnEmptyFiles(states[0]) && n <= |log|
    ensures SomeHeldAlone(states, log, n)
  {
    StartsAlone(states, log);
    for k := 0 to n
      invariant SomeHeldAlone(states, log, k)
    {
      StepLeavesNoData(states, log, k);
    }
  }

  /** At every point of every run, there is data for a backup if and only if it is listed: clean-up leaves nothing behind. */
  lemma DataExactlyForListed(states: seq<State>, log: seq<Entry>, n: nat, t: nat)
    requires IsRun(states, log) && StartsOnEmptyFiles(states[0]) && n <= |log|
    ensures var s := states[n];
            s.store.Get("backups/" + ("backup-" + s.formats.stamp(t) + "-" + Decimal(t))).Some? <==>
              exists info :: BackupRuns.Listed(s.store, info) && info.timestamp == t
  {
    var s := states[n];
    RunLeavesNoData(states, log, n);
    var v: Vault :| HeldAlone(states, log, n, v);
    InfosAreVault(s, v);
    assert DataKey(BackupId(s.formats, t)) == "backups/" + ("backup-" + s.formats.stamp(t) + "-" + Decimal(t));
    if t in v {
      var info := InfoFor(s.formats, t, v[t].description, v[t].config);
      assert InfoOf(s, v, info) && BackupRuns.Listed(s.store, info);
      ListedBackupsHaveData(s, v, info);
    } else {
      assert PlacesIn(s.store.backend, s.formats).data(t) !in s.store.data;
    }
  }
}
