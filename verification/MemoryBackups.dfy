/**
 The same backup code on a MemoryStorage.

 Clean-up never finds the metadata, so the retention bound fails.
 */
module MemoryBackups {
  import opened Common
  import opened Types
  import opened Storage
  import opened Backups
  import opened BackupSafety
  import opened BackupRuns

  /** Neither key that clean-up deletes looks like the key of metadata. */
  lemma EvictsNoMetadata(st: Store<Blob>, id: string)
    requires st.backend == Memory()
    ensures var st' := st.Remove(DataKey(id)).Remove(MetaDeleteKey(id));
            && st'.backend == Memory() && st'.Get(DataKey(id)).None?
            && (forall key :: META_PREFIX <= key ==> st'.Get(key) == st.Get(key))
            && forall key :: st.Get(key).None? ==> st'.Get(key).None?
  {
    assert DataKey(id)[6] == 's' && MetaDeleteKey(id)[11] == '/';
    assert META_PREFIX[6] == '-' && META_PREFIX[11] == ':';
  }

  lemma {:induction false} EvictionKeepsMetadata(st: Store<Blob>, victims: seq<BackupInfo>)
    requires st.backend == Memory()
    ensures Evict(st, victims).backend == st.backend
    ensures forall key :: META_PREFIX <= key ==> Evict(st, victims).Get(key) == st.Get(key)
    ensures forall info :: info in victims ==> Evict(st, victims).Get(DataKey(info.id)).None?
    decreases |victims|
  {
    if victims != [] {
      var init, last := victims[..|victims| - 1], victims[|victims| - 1];
      EvictionKeepsMetadata(st, init);
      assert victims == init + [last];
      EvictsNoMetadata(Evict(st, init), last.id);
    }
  }

  lemma SameReadable(a: Store<Blob>, b: Store<Blob>)
    requires a.backend == Memory() && b.backend == Memory()
    requires forall key :: META_PREFIX <= key ==> a.Get(key) == b.Get(key)
    ensures Readable(a) == Readable(b)
    ensures forall location :: location in Readable(a) ==> InfoAt(a, location) == InfoAt(b, location)
  {
  }

  /**
   On a MemoryStorage clean-up never removes metadata, so every failure-free CreateBackup
   adds one listed backup. The retention bound is met if and only if fewer than
   `maxBackups` were listed before; otherwise some listed backup has lost its data.
   */
  lemma Retention(s: State, t: nat, description: string, w: Writes, s': State, infos: seq<BackupInfo>)
    requires s.store.backend == Memory() && w.data && w.meta && s.config.settings.maxBackups > 0
    requires MetaKey(BackupId(s.formats, t)) !in s.store.data
    requires Creates(s, t, description, w, s', infos)
    ensures |Readable(s'.store)| == |Readable(s.store)| + 1
    ensures |Readable(s'.store)| <= s.config.settings.maxBackups <==> |Readable(s.store)| < s.config.settings.maxBackups
    ensures |Readable(s.store)| >= s.config.settings.maxBackups ==>
      exists info :: info in InfosAt(s'.store, Readable(s'.store)) && s'.store.Get(DataKey(info.id)).None?
  {
    var written, m := Written(s, t, description), s.config.settings.maxBackups;
    var victims := BeyondLimit(infos, m);
    EvictionKeepsMetadata(written, victims);
    SameReadable(s'.store, written);
    ReadableGrows(s, t, description);
    if |Readable(s.store)| >= m {
      assert infos[m] in infos && infos[m] == victims[0] && infos[m] in victims;
      SameInfos(s'.store, written);
    }
  }

  lemma SameInfos(a: Store<Blob>, b: Store<Blob>)
    requires a.backend == Memory() && b.backend == Memory() && Readable(a) == Readable(b)
    requires forall location :: location in Readable(a) ==> InfoAt(a, location) == InfoAt(b, location)
    ensures InfosAt(a, Readable(a)) == InfosAt(b, Readable(b))
  {
  }

  lemma ReadableGrows(s: State, t: nat, description: string)
    requires s.store.backend == Memory() && MetaKey(BackupId(s.formats, t)) !in s.store.data
    ensures |Readable(Written(s, t, description))| == |Readable(s.store)| + 1
  {
    var id := BackupId(s.formats, t);
    assert !(META_PREFIX <= DataKey(id)) by {
      assert DataKey(id)[6] == 's' && META_PREFIX[6] == '-';
    }
    Puts(s.store, DataKey(id), ConfigBlob(s.config), MetaKey(id), InfoBlob(InfoFor(s.formats, t, description, s.config)));
  }

  lemma ReadableKeys(st: Store<Blob>, key: string)
    requires st.backend == Memory()
    ensures key in Readable(st) <==> key in st.data && META_PREFIX <= key && DecodeInfo(st.data[key]).Some?
  {
  }

  /** Beside the new metadata key, the same keys are readable as before. */
  lemma PutsAt(st: Store<Blob>, dataKey: string, data: Blob, metaKey: string, meta: Blob, key: string)
    requires st.backend == Memory() && !(META_PREFIX <= dataKey) && META_PREFIX <= metaKey && meta.InfoBlob?
    ensures key in Readable(st.Put(dataKey, data).Put(metaKey, meta)) <==> key == metaKey || key in Readable(st)
  {
    ReadableKeys(st.Put(dataKey, data).Put(metaKey, meta), key);
    ReadableKeys(st, key);
  }

  lemma Puts(st: Store<Blob>, dataKey: string, data: Blob, metaKey: string, meta: Blob)
    requires st.backend == Memory() && !(META_PREFIX <= dataKey) && META_PREFIX <= metaKey
    requires metaKey !in st.data && meta.InfoBlob?
    ensures |Readable(st.Put(dataKey, data).Put(metaKey, meta))| == |Readable(st)| + 1
  {
    var before, after := Readable(st), Readable(st.Put(dataKey, data).Put(metaKey, meta));
    forall key ensures key in after <==> key in before + {metaKey} {
      PutsAt(st, dataKey, data, metaKey, meta, key);
    }
    assert after == before + {metaKey};
    assert metaKey !in before by {
      ReadableKeys(st, metaKey);
    }
  }

  // ---- Runs on a MemoryStorage ----

  /** Metadata in the storage belongs to backups made before this time. */
  ghost predicate MadeBefore(s: State, bound: nat) {
    forall key :: key in s.store.data && META_PREFIX <= key ==> exists u: nat :: u < bound && key == MetaKey(BackupId(s.formats, u))
  }

  lemma NextKeyIsFree(s: State, t: nat)
    requires MadeBefore(s, t)
    ensures MetaKey(BackupId(s.formats, t)) !in s.store.data
  {
    var id := BackupId(s.formats, t);
    if MetaKey(id) in s.store.data {
      assert META_PREFIX <= MetaKey(id);
      var u: nat :| u < t && MetaKey(id) == MetaKey(BackupId(s.formats, u));
      SameIdFromKeys(id, BackupId(s.formats, u));
      BackupIdInjective(s.formats, t, u);
    }
  }

  lemma CreateAddsOne(s: State, t: nat, description: string, w: Writes, s': State, infos: seq<BackupInfo>)
    requires s.store.backend == Memory() && w.data && w.meta && MadeBefore(s, t)
    requires Creates(s, t, description, w, s', infos)
    ensures s'.store.backend == Memory() && s'.config == s.config && s'.formats == s.formats
    ensures |Readable(s'.store)| == |Readable(s.store)| + 1
    ensures MadeBefore(s', t + 1)
  {
    NextKeyIsFree(s, t);
    ReadableGrows(s, t, description);
    var written, victims := Written(s, t, description), BeyondLimit(infos, s.config.settings.maxBackups);
    EvictionKeepsMetadata(written, victims);
    SameReadable(s'.store, written);
    WrittenMadeBefore(s, t, description, s'.store);
  }

  lemma WrittenMadeBefore(s: State, t: nat, description: string, after: Store<Blob>)
    requires s.store.backend == Memory() && after.backend == Memory() && MadeBefore(s, t)
    requires forall key :: META_PREFIX <= key ==> after.Get(key) == Written(s, t, description).Get(key)
    ensures MadeBefore(s.(store := after), t + 1)
  {
    var id := BackupId(s.formats, t);
    forall key | key in after.data && META_PREFIX <= key ensures exists u: nat :: u < t + 1 && key == MetaKey(BackupId(s.formats, u)) {
      assert after.Get(key).Some?;
      if key != MetaKey(id) {
        assert DataKey(id)[6] == 's' && META_PREFIX[6] == '-';
        assert key in s.store.data;
        var u: nat :| u < t && key == MetaKey(BackupId(s.formats, u));
        assert u < t + 1;
      }
    }
  }

  /** A run that only creates backups, with working writes, from an empty MemoryStorage. */
  ghost predicate OnlyCreates(states: seq<State>, log: seq<Entry>) {
    && IsRun(states, log)
    && states[0].store == Store(Memory(), map[])
    && forall i :: 0 <= i < |log| ==> log[i].event.Create? && log[i].writes.data && log[i].writes.meta
  }

  /** After `n` entries `n` backups are listed, all made before what follows. */
  ghost predicate ListsAllAfter(states: seq<State>, log: seq<Entry>, n: nat) {
    && n < |states| && n <= |log|
    && |Readable(states[n].store)| == n && states[n].config == states[0].config && states[n].store.backend == Memory()
    && (n < |log| ==> MadeBefore(states[n], log[n].time))
  }

  lemma NothingListed(states: seq<State>, log: seq<Entry>)
    requires OnlyCreates(states, log)
    ensures ListsAllAfter(states, log, 0)
  {
    assert Readable(states[0].store) == {};
  }

  lemma EntryAddsOne(states: seq<State>, log: seq<Entry>, n: nat)
    requires OnlyCreates(states, log) && 0 < n <= |log| && ListsAllAfter(states, log, n - 1)
    ensures ListsAllAfter(states, log, n)
  {
    var s, entry := states[n - 1], log[n - 1];
    assert Happens(s, entry, states[n]);
    var infos :| Creates(s, entry.time, entry.event.description, entry.writes, states[n], infos);
    CreateAddsOne(s, entry.time, entry.event.description, entry.writes, states[n], infos);
  }

  /** No such run ever loses a listed backup, whatever the limit. */
  lemma ListsAll(states: seq<State>, log: seq<Entry>, n: nat)
    requires OnlyCreates(states, log) && n <= |log|
    ensures ListsAllAfter(states, log, n)
  {
    NothingListed(states, log);
    for k := 0 to n
      invariant ListsAllAfter(states, log, k)
    {
      EntryAddsOne(states, log, k + 1);
    }
  }

  /** There is such a run of every length, under every configuration. */
  lemma {:induction false} SomeRun(config: Config, formats: Formats, n: nat) returns (states: seq<State>, log: seq<Entry>)
    ensures OnlyCreates(states, log) && |log| == n && states[0].config == config
    ensures forall i :: 0 <= i < n ==> log[i].time == i
    decreases n
  {
    if n == 0 {
      states, log := [State(Store(Memory(), map[]), config, "", None, formats)], [];
    } else {
      var before, init := SomeRun(config, formats, n - 1);
      var s, entry := before[n - 1], Entry(Create(""), n - 1, ALL_WRITES);
      var infos := SomeListing(Written(s, n - 1, ""));
      var s' := s.(store := Evict(Written(s, n - 1, ""), BeyondLimit(infos, s.config.settings.maxBackups)));
      assert Creates(s, n - 1, "", ALL_WRITES, s', infos);
      assert Happens(s, entry, s');
      states, log := before + [s'], init + [entry];
      RunExtended(before, init, s', entry);
    }
  }

  lemma RunExtended(states: seq<State>, log: seq<Entry>, s': State, entry: Entry)
    requires IsRun(states, log) && Happens(states[|log|], entry, s')
    requires forall i :: 0 <= i < |log| ==> log[i].time < entry.time
    ensures IsRun(states + [s'], log + [entry])
  {
    var states', log' := states + [s'], log + [entry];
    forall i | 0 <= i < |log'| ensures Happens(states'[i], log'[i], states'[i + 1]) {
      if i < |log| {
        assert Happens(states[i], log[i], states[i + 1]);
      }
    }
  }

  /** So with a limit of m > 0, after m + 1 backups m + 1 are listed, and one of them has no data. */
  lemma Overflows(config: Config, formats: Formats) returns (states: seq<State>, log: seq<Entry>, infos: seq<BackupInfo>, lost: BackupInfo)
    requires config.settings.maxBackups > 0
    ensures OnlyCreates(states, log) && states[0].config == config && |log| == config.settings.maxBackups + 1
    ensures IsListing(states[|log|].store, infos) && |infos| == config.settings.maxBackups + 1
    ensures lost in infos && states[|log|].store.Get(DataKey(lost.id)).None?
  {
    var m := config.settings.maxBackups;
    states, log := SomeRun(config, formats, m + 1);
    ListsAll(states, log, m);
    ListsAll(states, log, m + 1);
    infos := SomeListing(states[m + 1].store);
    assert Happens(states[m], log[m], states[m + 1]);
    lost := LostBackup(states[m], log[m], states[m + 1]);
  }

  lemma LostBackup(s: State, entry: Entry, s': State) returns (lost: BackupInfo)
    requires Happens(s, entry, s') && entry.event.Create? && entry.writes.data && entry.writes.meta
    requires s.store.backend == Memory() && MadeBefore(s, entry.time) && |Readable(s.store)| >= s.config.settings.maxBackups > 0
    ensures lost in InfosAt(s'.store, Readable(s'.store)) && s'.store.Get(DataKey(lost.id)).None?
  {
    var seen :| Creates(s, entry.time, entry.event.description, entry.writes, s', seen);
    NextKeyIsFree(s, entry.time);
    Retention(s, entry.time, entry.event.description, entry.writes, s', seen);
    lost :| lost in InfosAt(s'.store, Readable(s'.store)) && s'.store.Get(DataKey(lost.id)).None?;
  }
}
