/**
 Whole runs of backup operations on a FileStorage.

 What is listed, what can be restored, and what retention leaves.
 */
module BackupRuns {
  import opened Common
  import opened Types
  import opened Text
  import opened Storage
  import opened Backups
  import opened BackupSafety

  datatype Event =
    | Create(description: string)
    | Restore(id: string)
    | SetConfig(config: Config)

  datatype Entry = Entry(event: Event, time: nat, writes: Writes)

  ghost predicate Happens(s: State, entry: Entry, s': State) {
    match entry.event
    case Create(description) => exists infos :: Creates(s, entry.time, description, entry.writes, s', infos)
    case Restore(id) => exists infos :: Restores(s, id, entry.time, entry.writes, s', infos)
    case SetConfig(config) =>
      s' == if entry.writes.save then s.(config := config).Saved() else s.(config := config)
  }

  /** A run: a state before each entry and one at the end, at strictly increasing times. */
  ghost predicate IsRun(states: seq<State>, log: seq<Entry>) {
    && |states| == |log| + 1
    && (forall i :: 0 <= i < |log| ==> Happens(states[i], log[i], states[i + 1]))
    && (forall i, j :: 0 <= i < j < |log| ==> log[i].time < log[j].time)
  }

  ghost predicate StartsOnEmptyFiles(s: State) {
    IsFiles(s.store.backend) && CleanStamps(s.formats) && s.store.data == map[]
  }

  /** The backup that an entry of the log makes, if any. */
  function Makes(s: State, entry: Entry): Option<Saved> {
    match entry.event
    case Create(description) => MadeBy(s, description, entry.writes)
    case Restore(id) => if Restorable(s.store, id).Some? then MadeBy(s, SAFETY, entry.writes) else None
    case SetConfig(_) => None
  }

  lemma EventKeepsVault(s: State, u: Vault, entry: Entry, s': State) returns (v: Vault)
    requires Holds(s, u) && Before(u, entry.time) && Happens(s, entry, s')
    ensures Holds(s', v) && Before(v, entry.time + 1) && s'.formats == s.formats
    ensures Becomes(u, Makes(s, entry), entry.time, s.config.settings.maxBackups, v)
  {
    match entry.event
    case Create(description) =>
      var infos :| Creates(s, entry.time, description, entry.writes, s', infos);
      v := CreateKeepsVault(s, u, entry.time, description, entry.writes, s', infos);
    case Restore(id) =>
      var infos :| Restores(s, id, entry.time, entry.writes, s', infos);
      v := RestoreKeepsVault(s, u, id, entry.time, entry.writes, s', infos);
    case SetConfig(config) =>
      SaveKeepsVault(s.(config := config), u);
      v := u;
  }

  /** Entry `i` made this backup at time `t`, from the configuration that was current then. */
  ghost predicate CapturedBy(states: seq<State>, log: seq<Entry>, i: nat, t: nat, saved: Saved) {
    i < |log| && i < |states| && log[i].time == t && Makes(states[i], log[i]) == Some(saved)
  }

  /** Everything in the vault was captured by one of the first `n` entries, and is as it was captured. */
  ghost predicate AllCaptured(states: seq<State>, log: seq<Entry>, n: nat, v: Vault) {
    forall t :: t in v ==> exists i: nat :: i < n && CapturedBy(states, log, i, t, v[t])
  }

  lemma CapturedNext(states: seq<State>, log: seq<Entry>, n: nat, u: Vault, v: Vault)
    requires n < |log| && n < |states| && AllCaptured(states, log, n, u)
    requires Becomes(u, Makes(states[n], log[n]), log[n].time, states[n].config.settings.maxBackups, v)
    ensures AllCaptured(states, log, n + 1, v)
  {
    forall t | t in v ensures exists i: nat :: i < n + 1 && CapturedBy(states, log, i, t, v[t]) {
      if t in u && v[t] == u[t] {
        var i: nat :| i < n && CapturedBy(states, log, i, t, u[t]);
        assert i < n + 1;
      } else {
        assert CapturedBy(states, log, n, t, v[t]);
      }
    }
  }

  /** After `n` entries the storage holds complete backups only, each as it was captured, and all older than what follows. */
  ghost predicate HeldAfter(states: seq<State>, log: seq<Entry>, n: nat, v: Vault) {
    && n < |states| && n <= |log|
    && Holds(states[n], v) && AllCaptured(states, log, n, v)
    && (n < |log| ==> Before(v, log[n].time))
  }

  ghost predicate SomeHeldAfter(states: seq<State>, log: seq<Entry>, n: nat) {
    exists v :: HeldAfter(states, log, n, v)
  }

  lemma RunStep(states: seq<State>, log: seq<Entry>, n: nat, u: Vault) returns (v: Vault)
    requires IsRun(states, log) && n < |log| && HeldAfter(states, log, n, u)
    ensures HeldAfter(states, log, n + 1, v)
    ensures Becomes(u, Makes(states[n], log[n]), log[n].time, states[n].config.settings.maxBackups, v)
    ensures states[n + 1].formats == states[n].formats
  {
    assert Happens(states[n], log[n], states[n + 1]);
    v := EventKeepsVault(states[n], u, log[n], states[n + 1]);
    CapturedNext(states, log, n, u, v);
  }

  lemma StartHolds(states: seq<State>, log: seq<Entry>)
    requires IsRun(states, log) && StartsOnEmptyFiles(states[0])
    ensures SomeHeldAfter(states, log, 0)
  {
    FilesAreWellPlaced(states[0].store.backend.base, states[0].formats);
    var none: Vault := map[];
    assert HeldAfter(states, log, 0, none);
  }

  lemma StepHolds(states: seq<State>, log: seq<Entry>, n: nat)
    requires IsRun(states, log) && n < |log| && SomeHeldAfter(states, log, n)
    ensures SomeHeldAfter(states, log, n + 1)
  {
    var u :| HeldAfter(states, log, n, u);
    var v := RunStep(states, log, n, u);
  }

  /** This holds at every point of every run of creating, restoring and setting configurations, whatever writes fail. */
  lemma RunHolds(states: seq<State>, log: seq<Entry>, n: nat)
    requires IsRun(states, log) && StartsOnEmptyFiles(states[0]) && n <= |log|
    ensures SomeHeldAfter(states, log, n)
  {
    StartHolds(states, log);
    for k := 0 to n
      invariant SomeHeldAfter(states, log, k)
    {
      StepHolds(states, log, k);
    }
  }

  /** The info is what the storage lists for some backup. */
  ghost predicate Listed(st: Store<Blob>, info: BackupInfo) {
    info in InfosAt(st, Readable(st))
  }

  /** The record that an entry leaves of a configuration: its time and description, the sizes and the names. */
  ghost predicate Records(info: BackupInfo, entry: Entry, config: Config, formats: Formats) {
    && info.timestamp == entry.time && info.id == "backup-" + formats.stamp(entry.time) + "-" + Decimal(entry.time)
    && info.path == "backups/" + info.id + ".json" && info.size == formats.jsonLength(config) && info.kind == "manual"
    && match entry.event
       case Create(description) => info.description == description
       case Restore(_) => info.description == "pre-restore-backup"
       case SetConfig(_) => false
  }

  /** At every point of every run, each listed backup was captured by an earlier entry whose writes worked, and its data is still what was captured. */
  lemma EveryListedBackupHasData(states: seq<State>, log: seq<Entry>, n: nat, info: BackupInfo) returns (i: nat)
    requires IsRun(states, log) && StartsOnEmptyFiles(states[0]) && n <= |log| && Listed(states[n].store, info)
    ensures i < n && log[i].writes.data && log[i].writes.meta && Records(info, log[i], states[i].config, states[n].formats)
    ensures states[n].store.Get("backups/" + info.id) == Some(ConfigBlob(states[i].config))
  {
    RunHolds(states, log, n);
    var v :| HeldAfter(states, log, n, v);
    ListedBackupsHaveData(states[n], v, info);
    i := CapturingEntry(states, log, n, v, info.timestamp);
    MadeIsRecorded(states[i], log[i], states[n].formats);
  }

  lemma MadeIsRecorded(s: State, entry: Entry, formats: Formats)
    ensures Makes(s, entry).Some? ==> var made := Makes(s, entry).value;
      && entry.writes.data && entry.writes.meta
      && Records(InfoFor(formats, entry.time, made.description, made.config), entry, s.config, formats)
  {
  }

  lemma CapturingEntry(states: seq<State>, log: seq<Entry>, n: nat, v: Vault, t: nat) returns (i: nat)
    requires AllCaptured(states, log, n, v) && t in v && n <= |log| && n <= |states|
    ensures i < n && log[i].time == t && Makes(states[i], log[i]) == Some(v[t]) && v[t].config == states[i].config
  {
    i :| i < n && CapturedBy(states, log, i, t, v[t]);
    CapturesCurrent(states[i], log[i]);
  }

  lemma CapturesCurrent(s: State, entry: Entry)
    ensures Makes(s, entry).Some? ==> Makes(s, entry).value.config == s.config
  {
  }

  /** At any point of any run, restoring a listed backup brings back the configuration it was made from, in memory and persisted. */
  lemma RestoreBringsBack(states: seq<State>, log: seq<Entry>, n: nat, info: BackupInfo) returns (i: nat)
    requires IsRun(states, log) && StartsOnEmptyFiles(states[0]) && n < |log| && Listed(states[n].store, info)
    requires log[n].event == Restore(info.id) && log[n].writes.save
    ensures i < n && Records(info, log[i], states[i].config, states[n].formats)
    ensures states[n + 1].config == states[i].config
    ensures states[n + 1].Persisted() == Some(ConfigBlob(states[i].config))
  {
    i := EveryListedBackupHasData(states, log, n, info);
    RunHolds(states, log, n);
    var v :| HeldAfter(states, log, n, v);
    assert Happens(states[n], log[n], states[n + 1]);
    RestoredFrom(states[n], v, info.id, log[n], states[n + 1], states[i].config);
  }

  lemma RestoredFrom(s: State, v: Vault, id: string, entry: Entry, s': State, config: Config)
    requires Holds(s, v) && Before(v, entry.time) && Happens(s, entry, s')
    requires entry.event == Restore(id) && entry.writes.save && s.store.Get(DataKey(id)) == Some(ConfigBlob(config))
    ensures s'.config == config && s'.Persisted() == Some(ConfigBlob(config))
  {
    var infos :| Restores(s, id, entry.time, entry.writes, s', infos);
    var v' := RestoreKeepsVault(s, v, id, entry.time, entry.writes, s', infos);
  }

  /** A restore, of whatever data could be read, is undone by restoring the safety backup that it made. */
  lemma RestoreIsUndone(s: State, v: Vault, first: Entry, s1: State, second: Entry, s2: State)
    requires Holds(s, v) && Before(v, first.time) && first.time < second.time
    requires first.event.Restore? && Restorable(s.store, first.event.id).Some? && first.writes == ALL_WRITES && Happens(s, first, s1)
    requires second.event == Restore(BackupId(s.formats, first.time)) && second.writes.save && Happens(s1, second, s2)
    ensures s2.config == s.config && s2.Persisted() == Some(ConfigBlob(s.config))
  {
    var infos1 :| Restores(s, first.event.id, first.time, ALL_WRITES, s1, infos1);
    var infos2 :| Restores(s1, BackupId(s.formats, first.time), second.time, second.writes, s2, infos2);
    var v1 := RestoreKeepsVault(s, v, first.event.id, first.time, ALL_WRITES, s1, infos1);
    MadeIsKept(v, Saved(SAFETY, s.config), first.time, s.config.settings.maxBackups, v1);
    var v2 := RestoreSetsBoth(s1, v1, first.time, second.time, second.writes, s2, infos2);
  }

  /** In any run, restoring the safety backup right after a restore takes the configuration back to where it was. */
  lemma UndoOverRuns(states: seq<State>, log: seq<Entry>, n: nat)
    requires IsRun(states, log) && StartsOnEmptyFiles(states[0]) && n + 1 < |log|
    requires log[n].event.Restore? && Restorable(states[n].store, log[n].event.id).Some? && log[n].writes == ALL_WRITES
    requires log[n + 1].event == Restore(BackupId(states[n].formats, log[n].time)) && log[n + 1].writes.save
    ensures states[n + 2].config == states[n].config && states[n + 2].Persisted() == Some(ConfigBlob(states[n].config))
  {
    RunHolds(states, log, n);
    var v :| HeldAfter(states, log, n, v);
    assert Happens(states[n], log[n], states[n + 1]) && Happens(states[n + 1], log[n + 1], states[n + 2]);
    RestoreIsUndone(states[n], v, log[n], states[n + 1], log[n + 1], states[n + 2]);
  }

  // ---- The listing over runs ----

  function Newest(infos: seq<BackupInfo>, m: int): seq<BackupInfo> {
    if m > 0 && |infos| > m then infos[..m] else infos
  }

  /** What is listed after an entry: its own backup first, then what was listed before, up to the limit. */
  function ListedAfter(s: State, entry: Entry, before: seq<BackupInfo>): seq<BackupInfo> {
    var made := Makes(s, entry);
    if made.None? then before
    else Newest([InfoFor(s.formats, entry.time, made.value.description, made.value.config)] + before, s.config.settings.maxBackups)
  }

  ghost predicate Falling(infos: seq<BackupInfo>) {
    forall i, j :: 0 <= i < j < |infos| ==> infos[i].timestamp > infos[j].timestamp
  }

  lemma FirstIsMember<T>(xs: seq<T>)
    ensures xs != [] ==> xs[0] in xs
  {
  }

  /** A newest-first list without ties is determined by its members. */
  lemma {:induction false} FallingUnique(a: seq<BackupInfo>, b: seq<BackupInfo>)
    requires Falling(a) && Falling(b) && forall x :: x in a <==> x in b
    ensures a == b
    decreases |a|
  {
    FirstIsMember(a);
    FirstIsMember(b);
    if a != [] {
      assert a[0] == b[0];
      TailMembers(a);
      TailMembers(b);
      FallingUnique(a[1..], b[1..]);
    }
  }

  lemma TailMembers(a: seq<BackupInfo>)
    requires Falling(a) && a != []
    ensures forall x :: x in a[1..] <==> x in a && x != a[0]
    ensures Falling(a[1..])
  {
    assert a == [a[0]] + a[1..];
  }

  /** Of a full listing, the vault that keeps the newest has exactly the first entries. */
  lemma KeptIsPrefix(all: Vault, m: int, kept: Vault, infos: seq<BackupInfo>)
    requires KeepsNewest(all, m, kept) && Falling(infos) && Times(infos) == all.Keys
    ensures Times(Newest(infos, m)) == kept.Keys
  {
    TimesCount(infos);
    assert |all.Keys| == |infos|;
    var first := Newest(infos, m);
    TimesCount(first);
    assert forall k :: 0 <= k < |first| ==> first[k] == infos[k];
    forall k | 0 <= k < |first| ensures infos[k].timestamp in kept {
      if infos[k].timestamp !in kept {
        NewerThan(all, kept, infos, k);
      }
    }
    assert Times(first) <= kept.Keys;
    assert |first| == |kept.Keys|;
    SubsetOfEqualSize(Times(first), kept.Keys);
  }

  /** If entry `k` were evicted, only the `k` entries before it could be kept. */
  lemma NewerThan(all: Vault, kept: Vault, infos: seq<BackupInfo>, k: nat)
    requires k < |infos| && Falling(infos) && Times(infos) == all.Keys && kept.Keys <= all.Keys
    requires infos[k].timestamp !in kept
    requires forall t, u :: t in kept && u in all && u !in kept ==> t > u
    ensures |kept.Keys| <= k
  {
    var newer := infos[..k];
    TimesCount(newer);
    assert infos[k].timestamp in all;
    forall t | t in kept.Keys ensures t in Times(newer) {
      var i :| 0 <= i < |infos| && infos[i].timestamp == t;
      assert newer[i].timestamp == t;
    }
    SubsetNotLarger(kept.Keys, Times(newer));
  }

  lemma TimesOfVault(s: State, v: Vault, infos: seq<BackupInfo>)
    requires forall info :: info in infos <==> InfoOf(s, v, info)
    ensures Times(infos) == v.Keys
  {
    forall t | t in v.Keys ensures t in Times(infos) {
      var info := InfoFor(s.formats, t, v[t].description, v[t].config);
      assert InfoOf(s, v, info) && info in infos;
    }
    forall i | 0 <= i < |infos| ensures infos[i].timestamp in v {
      assert infos[i] in infos;
    }
  }

  /** Every operation changes the listing as it should, in terms of what was listed before. */
  lemma ListingEvolves(s: State, u: Vault, entry: Entry, v: Vault, before: seq<BackupInfo>, after: seq<BackupInfo>)
    requires Before(u, entry.time) && Becomes(u, Makes(s, entry), entry.time, s.config.settings.maxBackups, v)
    requires Falling(before) && forall info :: info in before <==> InfoOf(s, u, info)
    requires Falling(after) && forall info :: info in after <==> InfoOf(s, v, info)
    ensures after == ListedAfter(s, entry, before)
  {
    var made := Makes(s, entry);
    if made.None? {
      FallingUnique(after, before);
    } else {
      ListingGrows(s, u, entry.time, made.value, v, before, after);
    }
  }

  lemma ListingGrows(s: State, u: Vault, t: nat, made: Saved, v: Vault, before: seq<BackupInfo>, after: seq<BackupInfo>)
    requires Before(u, t) && Falling(before) && forall info :: info in before <==> InfoOf(s, u, info)
    requires Falling(after) && forall info :: info in after <==> InfoOf(s, v, info)
    requires KeepsNewest(u[t := made], s.config.settings.maxBackups, v)
    ensures after == Newest([InfoFor(s.formats, t, made.description, made.config)] + before, s.config.settings.maxBackups)
  {
    var all := u[t := made];
    var infos := [InfoFor(s.formats, t, made.description, made.config)] + before;
    var first := Newest(infos, s.config.settings.maxBackups);
    OneMoreListed(s, u, t, made, before);
    TimesOfVault(s, all, infos);
    KeptIsPrefix(all, s.config.settings.maxBackups, v, infos);
    KeptAsTheyWere(all, s.config.settings.maxBackups, v);
    PrefixListed(s, all, v, infos, first);
    FallingUnique(after, first);
  }

  lemma KeptAsTheyWere(all: Vault, m: int, kept: Vault)
    requires KeepsNewest(all, m, kept)
    ensures forall t :: t in kept ==> t in all && kept[t] == all[t]
  {
  }

  lemma OneMoreListed(s: State, u: Vault, t: nat, made: Saved, before: seq<BackupInfo>)
    requires Before(u, t) && Falling(before) && forall info :: info in before <==> InfoOf(s, u, info)
    ensures var infos := [InfoFor(s.formats, t, made.description, made.config)] + before;
            Falling(infos) && forall info :: info in infos <==> InfoOf(s, u[t := made], info)
  {
    var first := InfoFor(s.formats, t, made.description, made.config);
    var infos := [first] + before;
    forall i, j | 0 <= i < j < |infos| ensures infos[i].timestamp > infos[j].timestamp {
      assert infos[j] in before;
    }
    forall info ensures info in infos <==> InfoOf(s, u[t := made], info) {
      assert info in infos <==> info == first || info in before;
    }
  }

  lemma PrefixListed(s: State, all: Vault, v: Vault, infos: seq<BackupInfo>, first: seq<BackupInfo>)
    requires Falling(infos) && first <= infos && Times(first) == v.Keys
    requires forall info :: info in infos <==> InfoOf(s, all, info)
    requires forall t :: t in v ==> t in all && v[t] == all[t]
    ensures Falling(first) && forall info :: info in first <==> InfoOf(s, v, info)
  {
    assert forall k :: 0 <= k < |first| ==> first[k] == infos[k];
    forall info ensures info in first <==> InfoOf(s, v, info) {
      if info in first {
        assert info.timestamp in Times(first) && info in infos;
      }
      if InfoOf(s, v, info) {
        var k :| 0 <= k < |first| && first[k].timestamp == info.timestamp;
        assert first[k] in infos && InfoOf(s, all, first[k]);
      }
    }
  }

  /** The entry is a create, or a restore of something that can be read, and both of its backup's writes work. */
  ghost predicate BacksUp(s: State, entry: Entry) {
    && entry.writes.data && entry.writes.meta
    && match entry.event
       case Create(_) => true
       case Restore(id) => s.store.Get("backups/" + id) !in {None, Some(Garbage)}
       case SetConfig(_) => false
  }

  lemma BackingUpMakes(s: State, entry: Entry)
    ensures BacksUp(s, entry) <==> Makes(s, entry).Some?
  {
  }

  lemma ListingFollows(states: seq<State>, log: seq<Entry>, n: nat, before: seq<BackupInfo>, after: seq<BackupInfo>)
    requires IsRun(states, log) && StartsOnEmptyFiles(states[0]) && n < |log|
    requires IsListing(states[n].store, before) && IsListing(states[n + 1].store, after)
    ensures after == ListedAfter(states[n], log[n], before)
  {
    RunHolds(states, log, n);
    var u :| HeldAfter(states, log, n, u);
    var v := RunStep(states, log, n, u);
    ListingShowsVault(states[n], u, before);
    ListingShowsVault(states[n + 1], v, after);
    ListingEvolves(states[n], u, log[n], v, before, after);
  }

  /** One more record at the head of the listing, and of the others as many as the limit leaves room for. */
  ghost predicate Heads(after: seq<BackupInfo>, before: seq<BackupInfo>, m: int) {
    after != [] && after == [after[0]] + if 0 < m <= |before| then before[..m - 1] else before
  }

  lemma NewestIsHead(info: BackupInfo, before: seq<BackupInfo>, m: int)
    ensures var after := Newest([info] + before, m); Heads(after, before, m) && after[0] == info
  {
  }

  lemma ListedAfterExactly(s: State, entry: Entry, before: seq<BackupInfo>, after: seq<BackupInfo>)
    requires after == ListedAfter(s, entry, before)
    ensures if BacksUp(s, entry) then Heads(after, before, s.config.settings.maxBackups) && Records(after[0], entry, s.config, s.formats)
            else after == before
  {
    BackingUpMakes(s, entry);
    MadeIsRecorded(s, entry, s.formats);
    if BacksUp(s, entry) {
      var made := Makes(s, entry).value;
      NewestIsHead(InfoFor(s.formats, entry.time, made.description, made.config), before, s.config.settings.maxBackups);
    }
  }

  /**
   At every point of every run on files, what is listed next follows from what is listed
   now: an operation that makes a backup puts it first and keeps the newest min(n + 1, m);
   all others, and all that fail, leave the listing as it is.
   */
  lemma RetentionOverRuns(states: seq<State>, log: seq<Entry>, n: nat, before: seq<BackupInfo>, after: seq<BackupInfo>)
    requires IsRun(states, log) && StartsOnEmptyFiles(states[0]) && n < |log|
    requires IsListing(states[n].store, before) && IsListing(states[n + 1].store, after)
    ensures if BacksUp(states[n], log[n])
            then Heads(after, before, states[n].config.settings.maxBackups) && Records(after[0], log[n], states[n].config, states[n].formats)
            else after == before
  {
    ListingFollows(states, log, n, before, after);
    ListedAfterExactly(states[n], log[n], before, after);
  }
}
