/** Backups of the engine's configuration, kept in a storage. */
module Backups {
  // JSON is an injective codec: what was encoded decodes to itself, and decoding the other
  // record type yields its zero value, because Go ignores unknown fields.

  import opened Common
  import opened Types
  import opened Text
  import opened Storage

  // ---- Records and keys ----

  datatype BackupInfo = BackupInfo(id: string, path: string, timestamp: nat, size: nat, kind: string, description: string)

  datatype Blob = ConfigBlob(config: Config) | InfoBlob(info: BackupInfo) | Garbage

  const ZERO_CONFIG := Config("", map[], Settings(0, Null), map[])
  const ZERO_INFO := BackupInfo("", "", 0, 0, "", "")

  function DecodeConfig(b: Blob): Option<Config> {
    match b
    case ConfigBlob(c) => Some(c)
    case InfoBlob(_) => Some(ZERO_CONFIG)
    case Garbage => None
  }

  function DecodeInfo(b: Blob): Option<BackupInfo> {
    match b
    case ConfigBlob(_) => Some(ZERO_INFO)
    case InfoBlob(i) => Some(i)
    case Garbage => None
  }

  const META_PREFIX := "backup-meta:"

  function DataKey(id: string): string { "backups/" + id }

  function MetaKey(id: string): string { META_PREFIX + id }

  /** The key that clean-up deletes; not the one the metadata was written under. */
  function MetaDeleteKey(id: string): string { "backup-meta/" + id }

  /** What the model does not look into: how the clock prints a time as `20060102-150405`, and how long a configuration's JSON is. */
  datatype Formats = Formats(stamp: nat -> string, jsonLength: Config -> nat)

  function BackupId(formats: Formats, t: nat): string {
    "backup-" + formats.stamp(t) + "-" + Decimal(t)
  }

  ghost predicate CleanStamps(formats: Formats) {
    forall t: nat, c :: c in formats.stamp(t) ==> '0' <= c <= '9' || c == '-'
  }

  function InfoFor(formats: Formats, t: nat, description: string, config: Config): BackupInfo {
    var id := BackupId(formats, t);
    BackupInfo(id, "backups/" + id + ".json", t, formats.jsonLength(config), "manual", description)
  }

  // ---- Listing ----

  function InfoAt(st: Store<Blob>, location: string): Option<BackupInfo>
  {
    var blob := st.Get(st.KeyOf(location));
    if blob.Some? then DecodeInfo(blob.value) else None
  }

  /** The metadata locations that can be read and parsed. */
  ghost function Readable(st: Store<Blob>): set<string> {
    set location | location in st.Matching(META_PREFIX) && InfoAt(st, location).Some?
  }

  /** The infos at these locations, one each. */
  ghost predicate Collected(st: Store<Blob>, locations: seq<string>, infos: seq<BackupInfo>) {
    && |infos| == |locations|
    && (forall i :: 0 <= i < |infos| ==> InfoAt(st, locations[i]) == Some(infos[i]))
    && (forall i, j :: 0 <= i < j < |locations| ==> locations[i] != locations[j])
  }

  lemma CollectedAll(st: Store<Blob>, locations: seq<string>, infos: seq<BackupInfo>)
    requires Collected(st, locations, infos)
    requires forall location :: location in locations <==> location in st.Matching(META_PREFIX) && InfoAt(st, location).Some?
    ensures |infos| == |Readable(st)|
    ensures forall info :: info in infos <==> info in InfosAt(st, Readable(st))
  {
    var readable := Readable(st);
    DistinctCount(locations, readable);
    forall info ensures info in infos <==> info in InfosAt(st, readable) {
      if info in InfosAt(st, readable) {
        var location :| location in readable && InfoAt(st, location) == Some(info);
        var i :| 0 <= i < |locations| && locations[i] == location;
        assert infos[i] == info;
      }
      if info in infos {
        var i :| 0 <= i < |infos| && infos[i] == info;
        assert locations[i] in readable;
      }
    }
  }

  lemma {:induction false} DistinctCount(xs: seq<string>, members: set<string>)
    requires forall x :: x in members <==> x in xs
    requires forall i, j :: 0 <= i < j < |xs| ==> xs[i] != xs[j]
    ensures |members| == |xs|
    decreases |xs|
  {
    if xs != [] {
      var init, last := xs[..|xs| - 1], xs[|xs| - 1];
      assert xs == init + [last] && last !in init;
      DistinctCount(init, members - {last});
    } else {
      assert members == {};
    }
  }

  ghost predicate NewestFirst(infos: seq<BackupInfo>) {
    forall i, j :: 0 <= i < j < |infos| ==> infos[i].timestamp >= infos[j].timestamp
  }

  ghost predicate IsListing(st: Store<Blob>, infos: seq<BackupInfo>) {
    && NewestFirst(infos)
    && |infos| == |Readable(st)|
    && (forall info :: info in infos <==> info in InfosAt(st, Readable(st)))
  }

  ghost function InfosAt(st: Store<Blob>, locations: set<string>): set<BackupInfo> {
    set location | location in locations && InfoAt(st, location).Some? :: InfoAt(st, location).value
  }

  /** A record of another kind under a metadata key reads as an empty one; what cannot be parsed is skipped. */
  predicate ReadsAs(blob: Option<Blob>, info: BackupInfo) {
    match blob
    case Some(InfoBlob(stored)) => info == stored
    case Some(ConfigBlob(_)) => info == BackupInfo("", "", 0, 0, "", "")
    case _ => false
  }

  lemma InfosAtExactly(st: Store<Blob>)
    ensures forall info :: info in InfosAt(st, Readable(st)) <==>
              exists location :: location in st.Matching("backup-meta:") && ReadsAs(st.Get(st.KeyOf(location)), info)
  {
    forall location, info ensures InfoAt(st, location) == Some(info) <==> ReadsAs(st.Get(st.KeyOf(location)), info) {
    }
    forall info
      ensures info in InfosAt(st, Readable(st)) <==>
              exists location :: location in st.Matching("backup-meta:") && ReadsAs(st.Get(st.KeyOf(location)), info)
    {
      if location :| location in st.Matching("backup-meta:") && ReadsAs(st.Get(st.KeyOf(location)), info) {
        assert location in Readable(st) && InfoAt(st, location).value == info;
      }
      if info in InfosAt(st, Readable(st)) {
        var location :| location in Readable(st) && InfoAt(st, location) == Some(info);
        assert location in st.Matching("backup-meta:");
      }
    }
  }

  // ---- The engine's state and its steps ----

  datatype State = State(
    store: Store<Blob>,
    config: Config,
    configPath: string,
    configFile: Option<Blob>,
    formats: Formats)
  {
    /** saveConfigNoLock: to the config file if there is one, else to the storage. */
    function Saved(): State {
      if configPath != "" then this.(configFile := Some(ConfigBlob(config)))
      else this.(store := store.Put("config", ConfigBlob(config)))
    }

    function Persisted(): Option<Blob> {
      if configPath != "" then configFile else store.Get("config")
    }
  }

  /** Which of an operation's writes succeed; deletes always work. */
  datatype Writes = Writes(data: bool, meta: bool, save: bool)

  const ALL_WRITES := Writes(true, true, true)

  function Evict(st: Store<Blob>, victims: seq<BackupInfo>): Store<Blob> {
    if victims == [] then st
    else
      var last := victims[|victims| - 1];
      Evict(st, victims[..|victims| - 1]).Remove(DataKey(last.id)).Remove(MetaDeleteKey(last.id))
  }

  function BeyondLimit(infos: seq<BackupInfo>, m: int): seq<BackupInfo> {
    if m > 0 && |infos| > m then infos[m..] else []
  }

  function Written(s: State, t: nat, description: string): Store<Blob> {
    var info := InfoFor(s.formats, t, description, s.config);
    s.store.Put(DataKey(info.id), ConfigBlob(s.config)).Put(MetaKey(info.id), InfoBlob(info))
  }

  /** CreateBackup at time `t`: `listing` is what clean-up saw. */
  ghost predicate Creates(s: State, t: nat, description: string, w: Writes, s': State, listing: seq<BackupInfo>) {
    var id := BackupId(s.formats, t);
    if !w.data then s' == s
    else if !w.meta then s' == s.(store := s.store.Put(DataKey(id), ConfigBlob(s.config)).Remove(DataKey(id)))
    else
      && (s.config.settings.maxBackups > 0 ==> IsListing(Written(s, t, description), listing))
      && s' == s.(store := Evict(Written(s, t, description), BeyondLimit(listing, s.config.settings.maxBackups)))
  }

  lemma PutAndRemove(st: Store<Blob>, key: string, b: Blob)
    ensures st.Get(key).None? ==> st.Put(key, b).Remove(key) == st
  {
    if st.Get(key).None? {
      assert st.Put(key, b).Remove(key).data == st.data;
    }
  }

  const SAFETY := "pre-restore-backup"

  /** The configuration that the data stored for a backup decodes to, if any. */
  function Restorable(st: Store<Blob>, id: string): Option<Config> {
    var blob := st.Get(DataKey(id));
    if blob.Some? then DecodeConfig(blob.value) else None
  }

  /** RestoreBackup at time `t`. */
  ghost predicate Restores(s: State, id: string, t: nat, w: Writes, s': State, listing: seq<BackupInfo>) {
    var found := Restorable(s.store, id);
    if found.None? then s' == s
    else
      exists mid :: Creates(s, t, SAFETY, w, mid, listing) &&
        var restored := mid.(config := found.value);
        s' == if w.save then restored.Saved() else restored
  }

  class Engine {
    var store: Store<Blob>
    var config: Config
    var configPath: string
    var configFile: Option<Blob>
    const formats: Formats

    ghost function Now(): State
      reads this
    {
      State(store, config, configPath, configFile, formats)
    }

    constructor (store: Store<Blob>, config: Config, configPath: string, formats: Formats)
      ensures Now() == State(store, config, configPath, None, formats)
    {
      this.store, this.config, this.configPath, this.configFile, this.formats := store, config, configPath, None, formats;
    }

    /** Reads and parses one metadata entry; `None` where the source skips it. */
    method ReadInfo(location: string) returns (info: Option<BackupInfo>)
      ensures info == InfoAt(store, location)
    {
      var blob := store.Get(store.KeyOf(location));
      if blob.None? {
        return None;
      }
      return DecodeInfo(blob.value);
    }

    method ListBackups() returns (infos: seq<BackupInfo>)
      ensures IsListing(store, infos)
      ensures forall info :: info in infos <==>
        exists location :: location in store.Matching("backup-meta:") && ReadsAs(store.Get(store.KeyOf(location)), info)
    {
      infos := CollectInfos();
      ghost var unsorted := infos;
      infos := SortNewestFirst(infos);
      SameMembers(unsorted, infos);
      InfosAtExactly(store);
    }

    method CollectInfos() returns (infos: seq<BackupInfo>)
      ensures |infos| == |Readable(store)|
      ensures forall info :: info in infos <==> info in InfosAt(store, Readable(store))
    {
      infos := [];
      var pending := store.Matching(META_PREFIX);
      ghost var st, all := store, pending;
      ghost var locations: seq<string> := [];
      while pending != {}
        invariant pending <= all
        invariant Collected(st, locations, infos)
        invariant forall location :: location in locations <==> location in all && location !in pending && InfoAt(st, location).Some?
        decreases |pending|
      {
        var location :| location in pending;
        var info := ReadInfo(location);
        if info.Some? {
          infos := infos + [info.value];
          locations := locations + [location];
        }
        pending := pending - {location};
      }
      CollectedAll(st, locations, infos);
    }

    /** `None` is the error; a failed clean-up is none. */
    method CreateBackup(t: nat, description: string, w: Writes) returns (created: Option<BackupInfo>, ghost listing: seq<BackupInfo>)
      modifies this
      ensures Creates(old(Now()), t, description, w, Now(), listing)
      ensures created.Some? <==> w.data && w.meta
      ensures created.Some? ==> var info := created.value;
        && info.id == "backup-" + formats.stamp(t) + "-" + Decimal(t) && info.path == "backups/" + info.id + ".json"
        && info.timestamp == t && info.size == formats.jsonLength(old(config))
        && info.kind == "manual" && info.description == description
      ensures created.None? && old(store).Get("backups/" + ("backup-" + formats.stamp(t) + "-" + Decimal(t))).None? ==> store == old(store)
      ensures config == old(config) && configPath == old(configPath) && configFile == old(configFile)
    {
      listing := [];
      var info := InfoFor(formats, t, description, config);
      if !w.data {
        return None, [];
      }
      store := store.Put(DataKey(info.id), ConfigBlob(config));
      if !w.meta {
        store := store.Remove(DataKey(info.id));
        PutAndRemove(old(store), DataKey(info.id), ConfigBlob(config));
        return None, [];
      }
      store := store.Put(MetaKey(info.id), InfoBlob(info));
      if config.settings.maxBackups > 0 {
        listing := CleanupOldBackups(config.settings.maxBackups);
      }
      return Some(info), listing;
    }

    method CleanupOldBackups(maxBackups: nat) returns (ghost listing: seq<BackupInfo>)
      requires maxBackups > 0
      modifies this`store
      ensures IsListing(old(store), listing)
      ensures store == Evict(old(store), BeyondLimit(listing, maxBackups))
    {
      var backups := ListBackups();
      listing := backups;
      if |backups| > maxBackups {
        var toDelete := backups[maxBackups..];
        for i := 0 to |toDelete|
          invariant store == Evict(old(store), toDelete[..i])
        {
          assert toDelete[..i + 1][..i] == toDelete[..i];
          store := store.Remove(DataKey(toDelete[i].id));
          store := store.Remove(MetaDeleteKey(toDelete[i].id));
        }
        assert toDelete[..|toDelete|] == toDelete;
      }
    }

    method RestoreBackup(id: string, t: nat, w: Writes) returns (ok: bool, ghost listing: seq<BackupInfo>)
      modifies this
      ensures Restores(old(Now()), id, t, w, Now(), listing)
      ensures ok <==> w.save && Restorable(old(store), id).Some?
      ensures old(store).Get("backups/" + id) in {None, Some(Garbage)} ==> !ok && Now() == old(Now())
      ensures forall c :: old(store).Get("backups/" + id) == Some(ConfigBlob(c)) ==>
        ok == w.save && config == c && (ok ==> Now().Persisted() == Some(ConfigBlob(c)))
    {
      listing := [];
      var blob := store.Get(DataKey(id));
      if blob.None? {
        return false, [];
      }
      var restored := DecodeConfig(blob.value);
      if restored.None? {
        return false, [];
      }
      var safety;
      safety, listing := CreateBackup(t, SAFETY, w);
      ghost var mid := Now();
      config := restored.value;
      if !w.save {
        return false, listing;
      }
      SaveConfig();
      return true, listing;
    }

    method SaveConfig()
      modifies this
      ensures Now() == old(Now()).Saved()
      ensures Now().Persisted() == Some(ConfigBlob(config)) && config == old(config) && configPath == old(configPath)
      ensures configPath != "" ==> store == old(store)
      ensures configPath == "" ==> configFile == old(configFile)
      ensures forall key :: store.Locate(key) != store.Locate("config") ==> store.Get(key) == old(store).Get(key)
    {
      if configPath != "" {
        configFile := Some(ConfigBlob(config));
      } else {
        store := store.Put("config", ConfigBlob(config));
      }
    }

    /** Memory changes even if saving fails; what is persisted changes with the write. */
    method SetConfig(newConfig: Config, w: Writes) returns (ok: bool)
      modifies this
      ensures ok == w.save && config == newConfig && configPath == old(configPath)
      ensures Now() == if ok then old(Now()).(config := newConfig).Saved() else old(Now()).(config := newConfig)
      ensures Now().Persisted() == if ok then Some(ConfigBlob(newConfig)) else old(Now().Persisted())
    {
      config := newConfig;
      if !w.save {
        return false;
      }
      SaveConfig();
      return true;
    }
  }

  // ---- Sorting ----

  function Insert(infos: seq<BackupInfo>, x: BackupInfo): seq<BackupInfo> {
    if infos == [] then [x]
    else if x.timestamp >= infos[0].timestamp then [x] + infos
    else [infos[0]] + Insert(infos[1..], x)
  }

  lemma {:induction false} InsertMembers(infos: seq<BackupInfo>, x: BackupInfo)
    ensures multiset(Insert(infos, x)) == multiset(infos) + multiset{x}
    decreases |infos|
  {
    if infos != [] {
      assert infos == [infos[0]] + infos[1..];
      InsertMembers(infos[1..], x);
    }
  }

  lemma {:induction false} InsertSorted(infos: seq<BackupInfo>, x: BackupInfo)
    requires NewestFirst(infos)
    ensures NewestFirst(Insert(infos, x))
    decreases |infos|
  {
    if infos != [] && x.timestamp < infos[0].timestamp {
      InsertSorted(infos[1..], x);
      InsertMembers(infos[1..], x);
      var rest := Insert(infos[1..], x);
      forall k | 0 <= k < |rest| ensures infos[0].timestamp >= rest[k].timestamp {
        assert rest[k] in multiset(rest);
        assert rest[k] in infos[1..] || rest[k] == x;
      }
    }
  }

  method SortNewestFirst(infos: seq<BackupInfo>) returns (sorted: seq<BackupInfo>)
    ensures multiset(sorted) == multiset(infos) && NewestFirst(sorted)
  {
    sorted := [];
    for i := 0 to |infos|
      invariant multiset(sorted) == multiset(infos[..i]) && NewestFirst(sorted)
    {
      InsertSorted(sorted, infos[i]);
      InsertMembers(sorted, infos[i]);
      sorted := Insert(sorted, infos[i]);
      assert infos[..i + 1] == infos[..i] + [infos[i]];
    }
    assert infos[..|infos|] == infos;
  }

  lemma SameMembers(a: seq<BackupInfo>, b: seq<BackupInfo>)
    requires multiset(a) == multiset(b)
    ensures |a| == |b| && forall x :: x in a <==> x in b
  {
    assert |multiset(a)| == |a| && |multiset(b)| == |b|;
    forall x ensures x in a <==> x in b {
      assert x in a <==> x in multiset(a);
      assert x in b <==> x in multiset(b);
    }
  }

  /** Every storage has a listing. */
  lemma SomeListing(st: Store<Blob>) returns (infos: seq<BackupInfo>)
    ensures IsListing(st, infos)
  {
    var locations := SomeOrdering(Readable(st));
    assert forall i :: 0 <= i < |locations| ==> locations[i] in Readable(st);
    var unsorted := seq(|locations|, i requires 0 <= i < |locations| => InfoAt(st, locations[i]).value);
    CollectedAll(st, locations, unsorted);
    infos := Sorted(unsorted);
    SameMembers(unsorted, infos);
  }

  lemma {:induction false} Sorted(infos: seq<BackupInfo>) returns (sorted: seq<BackupInfo>)
    ensures multiset(sorted) == multiset(infos) && NewestFirst(sorted)
    decreases |infos|
  {
    if infos == [] {
      sorted := [];
    } else {
      var rest := Sorted(infos[1..]);
      assert infos == [infos[0]] + infos[1..];
      InsertSorted(rest, infos[0]);
      InsertMembers(rest, infos[0]);
      sorted := Insert(rest, infos[0]);
    }
  }
}
