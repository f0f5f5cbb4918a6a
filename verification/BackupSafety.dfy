/**
 The backups that a storage holds, as a vault.

 Creating, evicting and restoring keep every backup's metadata and data together, provided
 the keys are well placed: both spellings of a metadata key are one place, listing names
 it, and no two backups or the saved configuration share a place. The keys of a
 FileStorage are.
 */
module BackupSafety {
  import opened Common
  import opened Types
  import opened Text
  import opened Paths
  import opened Storage
  import opened Backups

  // ---- The abstract vault ----

  datatype Saved = Saved(description: string, config: Config)

  /** The backups that exist, by creation time. */
  type Vault = map<nat, Saved>

  datatype Places = Places(meta: nat -> string, data: nat -> string)

  /** No two backups share a file, and metadata never sits where data does. */
  ghost predicate Apart(p: Places) {
    forall t: nat, u: nat ::
      && (p.meta(t) == p.meta(u) ==> t == u)
      && (p.data(t) == p.data(u) ==> t == u)
      && p.meta(t) != p.data(u)
  }

  ghost predicate Stored(files: map<string, Blob>, v: Vault, p: Places, formats: Formats) {
    forall t :: t in v ==>
      && p.meta(t) in files && files[p.meta(t)] == InfoBlob(InfoFor(formats, t, v[t].description, v[t].config))
      && p.data(t) in files && files[p.data(t)] == ConfigBlob(v[t].config)
  }

  ghost predicate NothingElse(files: map<string, Blob>, v: Vault, p: Places, isMeta: string -> bool) {
    forall location :: location in files && isMeta(location) ==> exists t :: t in v && p.meta(t) == location
  }

  lemma StoredWith(files: map<string, Blob>, v: Vault, p: Places, formats: Formats, t: nat, saved: Saved)
    requires Apart(p) && Stored(files, v, p, formats)
    ensures Stored(files[p.data(t) := ConfigBlob(saved.config)][p.meta(t) := InfoBlob(InfoFor(formats, t, saved.description, saved.config))],
                   v[t := saved], p, formats)
  {
    var info, blob := InfoBlob(InfoFor(formats, t, saved.description, saved.config)), ConfigBlob(saved.config);
    var files', v' := files[p.data(t) := blob][p.meta(t) := info], v[t := saved];
    assert p.meta(t) != p.data(t);
    forall u | u in v'
      ensures p.meta(u) in files' && files'[p.meta(u)] == InfoBlob(InfoFor(formats, u, v'[u].description, v'[u].config))
      ensures p.data(u) in files' && files'[p.data(u)] == ConfigBlob(v'[u].config)
    {
      if u != t {
        OtherPlaces(p, t, u);
        assert v'[u] == v[u];
      }
    }
  }

  lemma NothingElseWith(files: map<string, Blob>, v: Vault, p: Places, isMeta: string -> bool, t: nat, saved: Saved, data: Blob, meta: Blob)
    requires NothingElse(files, v, p, isMeta) && !isMeta(p.data(t))
    ensures NothingElse(files[p.data(t) := data][p.meta(t) := meta], v[t := saved], p, isMeta)
  {
    var files', v' := files[p.data(t) := data][p.meta(t) := meta], v[t := saved];
    forall location | location in files' && isMeta(location) ensures exists u :: u in v' && p.meta(u) == location {
      if location == p.meta(t) {
        assert t in v';
      } else {
        var u :| u in v && p.meta(u) == location;
        assert u in v';
      }
    }
  }

  lemma StoredWithout(files: map<string, Blob>, v: Vault, p: Places, formats: Formats, t: nat)
    requires Apart(p) && Stored(files, v, p, formats)
    ensures Stored(files - {p.data(t)} - {p.meta(t)}, v - {t}, p, formats)
  {
    var files', v' := files - {p.data(t)} - {p.meta(t)}, v - {t};
    forall u | u in v'
      ensures p.meta(u) in files' && files'[p.meta(u)] == InfoBlob(InfoFor(formats, u, v'[u].description, v'[u].config))
      ensures p.data(u) in files' && files'[p.data(u)] == ConfigBlob(v'[u].config)
    {
      OtherPlaces(p, t, u);
      OtherFile(files, p.data(t), p.meta(t), p.meta(u));
      OtherFile(files, p.data(t), p.meta(t), p.data(u));
    }
  }

  lemma OtherFile(files: map<string, Blob>, a: string, b: string, other: string)
    requires other != a && other != b
    ensures other in files - {a} - {b} <==> other in files
    ensures other in files ==> (files - {a} - {b})[other] == files[other]
  {
  }

  lemma OtherPlaces(p: Places, t: nat, u: nat)
    requires Apart(p) && t != u
    ensures p.meta(u) != p.meta(t) && p.meta(u) != p.data(t) && p.data(u) != p.meta(t) && p.data(u) != p.data(t)
  {
  }

  lemma NothingElseWithout(files: map<string, Blob>, v: Vault, p: Places, isMeta: string -> bool, t: nat)
    requires NothingElse(files, v, p, isMeta)
    ensures NothingElse(files - {p.data(t)} - {p.meta(t)}, v - {t}, p, isMeta)
  {
    var files' := files - {p.data(t)} - {p.meta(t)};
    forall location | location in files' && isMeta(location) ensures exists u :: u in v - {t} && p.meta(u) == location {
      var u :| u in v && p.meta(u) == location;
      assert u in v - {t};
    }
  }

  /** A data file outside the vault, or any other file, comes and goes without effect. */
  lemma VaultElsewhere(files: map<string, Blob>, v: Vault, p: Places, formats: Formats, isMeta: string -> bool, location: string, b: Blob)
    requires Stored(files, v, p, formats) && NothingElse(files, v, p, isMeta)
    requires !isMeta(location) && forall t :: t in v ==> location != p.meta(t) && location != p.data(t)
    ensures Stored(files[location := b], v, p, formats) && NothingElse(files[location := b], v, p, isMeta)
    ensures Stored(files - {location}, v, p, formats) && NothingElse(files - {location}, v, p, isMeta)
    ensures Stored(files[location := b] - {location}, v, p, formats) && NothingElse(files[location := b] - {location}, v, p, isMeta)
  {
  }

  // ---- Where the backups are ----

  ghost function PlacesIn(b: Backend, formats: Formats): Places {
    Places((t: nat) => b.locate(MetaKey(BackupId(formats, t))), (t: nat) => b.locate(DataKey(BackupId(formats, t))))
  }

  ghost function IsMetaIn(b: Backend): string -> bool {
    location => b.visible(location) && META_PREFIX <= b.keyOf(location)
  }

  /** What the backup code relies on: both spellings of a metadata key are one place, and places do not interfere. */
  ghost predicate WellPlaced(b: Backend, formats: Formats) {
    var p, isMeta := PlacesIn(b, formats), IsMetaIn(b);
    && Apart(p)
    && (forall t: nat :: b.locate(MetaDeleteKey(BackupId(formats, t))) == p.meta(t))
    && (forall t: nat :: b.keyOf(p.meta(t)) == MetaKey(BackupId(formats, t)) && isMeta(p.meta(t)) && !isMeta(p.data(t)))
    && !isMeta(b.locate("config"))
    && (forall t: nat :: b.locate("config") != p.meta(t) && b.locate("config") != p.data(t))
  }

  /** The storage contains the vault's backups, complete, and lists no others. */
  ghost predicate Holds(s: State, v: Vault) {
    && WellPlaced(s.store.backend, s.formats)
    && Stored(s.store.data, v, PlacesIn(s.store.backend, s.formats), s.formats)
    && NothingElse(s.store.data, v, PlacesIn(s.store.backend, s.formats), IsMetaIn(s.store.backend))
  }

  // ---- A FileStorage is well placed ----

  lemma BackupIdWordy(formats: Formats, t: nat)
    requires CleanStamps(formats)
    ensures Wordy(BackupId(formats, t))
  {
  }

  lemma BackupIdInjective(formats: Formats, t: nat, u: nat)
    requires BackupId(formats, t) == BackupId(formats, u)
    ensures t == u
  {
    NumberedNameInjective("backup-" + formats.stamp(t), t, "backup-" + formats.stamp(u), u);
  }

  /** The two spellings of a metadata key are one file, and each file's name as listing shows it. */
  lemma KeyNames(base: string, id: string)
    requires Wordy(id)
    ensures KeyToPath(base, MetaDeleteKey(id)) == KeyToPath(base, MetaKey(id))
    ensures Below(base, KeyToPath(base, MetaKey(id))) && PathToKey(Relative(base, KeyToPath(base, MetaKey(id)))) == MetaKey(id)
    ensures Below(base, KeyToPath(base, DataKey(id))) && PathToKey(Relative(base, KeyToPath(base, DataKey(id)))) == "backups:" + id
  {
    TwoSegments("backup-meta", ':', id);
    TwoSegments("backup-meta", '/', id);
    TwoSegments("backups", '/', id);
    assert MetaKey(id) == "backup-meta" + [':'] + id;
    assert MetaDeleteKey(id) == "backup-meta" + ['/'] + id;
    assert DataKey(id) == "backups" + ['/'] + id;
    assert "backups" + [':'] + id == "backups:" + id;
    SameFile(base, MetaKey(id), MetaDeleteKey(id));
    PathRoundTrip(base, MetaKey(id));
    PathRoundTrip(base, DataKey(id));
  }

  /** Every place of a backup, and what listing calls it. */
  lemma PlaceNames(base: string, formats: Formats, t: nat)
    requires CleanStamps(formats)
    ensures var b, p, id := Files(base), PlacesIn(Files(base), formats), BackupId(formats, t);
            && b.locate(MetaDeleteKey(id)) == p.meta(t)
            && b.visible(p.meta(t)) && b.keyOf(p.meta(t)) == MetaKey(id)
            && b.visible(p.data(t)) && b.keyOf(p.data(t)) == "backups:" + id
  {
    BackupIdWordy(formats, t);
    KeyNames(base, BackupId(formats, t));
  }

  lemma KindsDiffer(id: string)
    ensures !(META_PREFIX <= "backups:" + id) && META_PREFIX <= MetaKey(id) && !(META_PREFIX <= "config")
    ensures "backups:" + id != "config" && MetaKey(id) != "config"
  {
    assert ("backups:" + id)[6] == 's' && META_PREFIX[6] == '-';
    assert ("backups:" + id)[0] == 'b' && MetaKey(id)[0] == 'b';
  }

  /** What listing calls a file tells data from metadata, and one backup from another. */
  lemma PairApart(base: string, formats: Formats, t: nat, u: nat)
    requires CleanStamps(formats)
    ensures var p, isMeta := PlacesIn(Files(base), formats), IsMetaIn(Files(base));
            && (p.meta(t) == p.meta(u) ==> t == u) && (p.data(t) == p.data(u) ==> t == u) && p.meta(t) != p.data(u)
            && isMeta(p.meta(t)) && !isMeta(p.data(t))
  {
    PlaceNames(base, formats, t);
    PlaceNames(base, formats, u);
    var a, b := BackupId(formats, t), BackupId(formats, u);
    KindsDiffer(a);
    KindsDiffer(b);
    if MetaKey(a) == MetaKey(b) || "backups:" + a == "backups:" + b {
      SameIdFromKeys(a, b);
      BackupIdInjective(formats, t, u);
    }
  }

  lemma SameIdFromKeys(a: string, b: string)
    requires MetaKey(a) == MetaKey(b) || "backups:" + a == "backups:" + b
    ensures a == b
  {
    assert a == MetaKey(a)[|META_PREFIX|..] == ("backups:" + a)[8..];
    assert b == MetaKey(b)[|META_PREFIX|..] == ("backups:" + b)[8..];
  }

  lemma ConfigElsewhere(base: string, formats: Formats, t: nat)
    requires CleanStamps(formats)
    ensures var p, at := PlacesIn(Files(base), formats), Files(base).locate("config");
            !IsMetaIn(Files(base))(at) && at != p.meta(t) && at != p.data(t)
  {
    OneSegment("config");
    PathRoundTrip(base, "config");
    PlaceNames(base, formats, t);
    KindsDiffer(BackupId(formats, t));
  }

  /** On files, `backup-meta:ID` and `backup-meta/ID` are one file, and no two backups collide. */
  lemma FilesAreWellPlaced(base: string, formats: Formats)
    requires CleanStamps(formats)
    ensures WellPlaced(Files(base), formats)
  {
    var b, p, isMeta := Files(base), PlacesIn(Files(base), formats), IsMetaIn(Files(base));
    forall t: nat, u: nat
      ensures (p.meta(t) == p.meta(u) ==> t == u) && (p.data(t) == p.data(u) ==> t == u) && p.meta(t) != p.data(u)
    {
      PairApart(base, formats, t, u);
    }
    forall t: nat
      ensures b.locate(MetaDeleteKey(BackupId(formats, t))) == p.meta(t) && b.keyOf(p.meta(t)) == MetaKey(BackupId(formats, t))
    {
      PlaceNames(base, formats, t);
    }
    forall t: nat ensures isMeta(p.meta(t)) && !isMeta(p.data(t)) {
      PairApart(base, formats, t, t);
    }
    forall t: nat ensures !isMeta(b.locate("config")) && b.locate("config") != p.meta(t) && b.locate("config") != p.data(t) {
      ConfigElsewhere(base, formats, t);
    }
    ConfigElsewhere(base, formats, 0);
  }

  // ---- Listing shows the vault, newest first ----

  lemma {:induction false} NoDuplicates<T>(xs: seq<T>, members: set<T>)
    requires forall x :: x in members <==> x in xs
    ensures |members| <= |xs|
    ensures |members| == |xs| ==> forall i, j :: 0 <= i < j < |xs| ==> xs[i] != xs[j]
    decreases |xs|
  {
    if xs != [] {
      var rest := xs[1..];
      assert xs == [xs[0]] + rest;
      if xs[0] in rest {
        NoDuplicates(rest, members);
      } else {
        NoDuplicates(rest, members - {xs[0]});
      }
    }
  }

  lemma MetaReadable(s: State, v: Vault, t: nat)
    requires Holds(s, v) && t in v
    ensures var at := PlacesIn(s.store.backend, s.formats).meta(t);
            at in Readable(s.store) && InfoAt(s.store, at) == Some(InfoFor(s.formats, t, v[t].description, v[t].config))
  {
    var at := PlacesIn(s.store.backend, s.formats).meta(t);
    assert IsMetaIn(s.store.backend)(at);
    assert at in s.store.Matching(META_PREFIX);
    assert s.store.Get(s.store.KeyOf(at)) == Some(s.store.data[at]);
  }

  lemma ReadableIsVault(s: State, v: Vault)
    requires Holds(s, v)
    ensures forall location :: location in Readable(s.store) <==>
              exists t :: t in v.Keys && PlacesIn(s.store.backend, s.formats).meta(t) == location
    ensures |Readable(s.store)| == |v|
  {
    var p, readable := PlacesIn(s.store.backend, s.formats), Readable(s.store);
    forall t | t in v ensures p.meta(t) in readable {
      MetaReadable(s, v, t);
    }
    forall location | location in readable ensures exists t :: t in v.Keys && p.meta(t) == location {
      assert IsMetaIn(s.store.backend)(location);
    }
    ImageSize(readable, v.Keys, p.meta);
  }

  ghost predicate InfoOf(s: State, v: Vault, info: BackupInfo) {
    info.timestamp in v && info == InfoFor(s.formats, info.timestamp, v[info.timestamp].description, v[info.timestamp].config)
  }

  lemma InfosAreVault(s: State, v: Vault)
    requires Holds(s, v)
    ensures forall info :: info in InfosAt(s.store, Readable(s.store)) <==> InfoOf(s, v, info)
  {
    ReadableIsVault(s, v);
    var p, readable := PlacesIn(s.store.backend, s.formats), Readable(s.store);
    forall info ensures info in InfosAt(s.store, readable) <==> InfoOf(s, v, info) {
      if InfoOf(s, v, info) {
        MetaReadable(s, v, info.timestamp);
      }
      if info in InfosAt(s.store, readable) {
        var location :| location in readable && InfoAt(s.store, location) == Some(info);
        var t :| t in v.Keys && p.meta(t) == location;
        MetaReadable(s, v, t);
      }
    }
  }

  lemma ListingShowsVault(s: State, v: Vault, infos: seq<BackupInfo>)
    requires Holds(s, v) && IsListing(s.store, infos)
    ensures |infos| == |v|
    ensures forall info :: info in infos <==> InfoOf(s, v, info)
    ensures forall i, j :: 0 <= i < j < |infos| ==> infos[i].timestamp > infos[j].timestamp
  {
    ReadableIsVault(s, v);
    InfosAreVault(s, v);
    var members := InfosAt(s.store, Readable(s.store));
    MembersCount(v, s.formats, members);
    NoDuplicates(infos, members);
    forall i, j | 0 <= i < j < |infos| ensures infos[i].timestamp > infos[j].timestamp {
      assert InfoOf(s, v, infos[i]) && InfoOf(s, v, infos[j]);
    }
  }

  lemma MembersCount(v: Vault, formats: Formats, members: set<BackupInfo>)
    requires forall info :: info in members <==>
      info.timestamp in v && info == InfoFor(formats, info.timestamp, v[info.timestamp].description, v[info.timestamp].config)
    ensures |members| == |v|
  {
    if v == map[] {
      assert members == {};
    } else {
      var t :| t in v;
      var info := InfoFor(formats, t, v[t].description, v[t].config);
      MembersCount(v - {t}, formats, members - {info});
    }
  }

  /** Every listed backup can be read back: its data is there and is the configuration captured at its time. */
  lemma ListedBackupsHaveData(s: State, v: Vault, info: BackupInfo)
    requires Holds(s, v) && info in InfosAt(s.store, Readable(s.store))
    ensures InfoOf(s, v, info)
    ensures s.store.Get(DataKey(info.id)) == Some(ConfigBlob(v[info.timestamp].config))
  {
    InfosAreVault(s, v);
    assert PlacesIn(s.store.backend, s.formats).data(info.timestamp) in s.store.data;
  }

  // ---- Eviction ----

  function Times(infos: seq<BackupInfo>): set<nat> {
    set i | 0 <= i < |infos| :: infos[i].timestamp
  }

  lemma EvictOne(s: State, v: Vault, t: nat)
    requires Holds(s, v)
    ensures var id := BackupId(s.formats, t);
            Holds(s.(store := s.store.Remove(DataKey(id)).Remove(MetaDeleteKey(id))), v - {t})
  {
    var p := PlacesIn(s.store.backend, s.formats);
    StoredWithout(s.store.data, v, p, s.formats, t);
    NothingElseWithout(s.store.data, v, p, IsMetaIn(s.store.backend), t);
    assert s.store.Remove(DataKey(BackupId(s.formats, t))).Remove(MetaDeleteKey(BackupId(s.formats, t))).data ==
           s.store.data - {p.data(t)} - {p.meta(t)};
  }

  lemma {:induction false} EvictionRemoves(s: State, v: Vault, victims: seq<BackupInfo>)
    requires Holds(s, v)
    requires forall info :: info in victims ==> info.id == BackupId(s.formats, info.timestamp)
    ensures Holds(s.(store := Evict(s.store, victims)), v - Times(victims))
    decreases |victims|
  {
    if victims == [] {
      assert v - Times(victims) == v;
    } else {
      var init, last := victims[..|victims| - 1], victims[|victims| - 1];
      assert last in victims && victims == init + [last];
      EvictionRemoves(s, v, init);
      EvictOne(s.(store := Evict(s.store, init)), v - Times(init), last.timestamp);
      TimesSnoc(v, init, last);
    }
  }

  lemma TimesSnoc(v: Vault, init: seq<BackupInfo>, last: BackupInfo)
    ensures v - Times(init) - {last.timestamp} == v - Times(init + [last])
  {
    var all := init + [last];
    assert forall i :: 0 <= i < |init| ==> all[i] == init[i];
    assert all[|init|] == last;
    assert Times(all) == Times(init) + {last.timestamp};
  }

  lemma {:induction false} EvictKeepsBackend(st: Store<Blob>, victims: seq<BackupInfo>)
    ensures Evict(st, victims).backend == st.backend
    decreases |victims|
  {
    if victims != [] {
      EvictKeepsBackend(st, victims[..|victims| - 1]);
    }
  }

  // ---- CreateBackup ----

  /** `kept` is the part of `all` that clean-up with limit `m` leaves: the newest min(|all|, m). */
  ghost predicate KeepsNewest(all: Vault, m: int, kept: Vault) {
    if m <= 0 then kept == all
    else
      && kept.Keys <= all.Keys
      && (forall t :: t in kept ==> kept[t] == all[t])
      && |kept| == (if |all| < m then |all| else m)
      && (forall t, u :: t in kept && u in all && u !in kept ==> t > u)
  }

  ghost predicate Before(v: Vault, t: nat) {
    forall u :: u in v ==> u < t
  }

  lemma WrittenHolds(s: State, v: Vault, t: nat, description: string)
    requires Holds(s, v)
    ensures Holds(s.(store := Written(s, t, description)), v[t := Saved(description, s.config)])
  {
    var p, saved := PlacesIn(s.store.backend, s.formats), Saved(description, s.config);
    StoredWith(s.store.data, v, p, s.formats, t, saved);
    NothingElseWith(s.store.data, v, p, IsMetaIn(s.store.backend), t, saved,
                    ConfigBlob(s.config), InfoBlob(InfoFor(s.formats, t, description, s.config)));
  }

  lemma {:induction false} TimesCount(infos: seq<BackupInfo>)
    requires forall i, j :: 0 <= i < j < |infos| ==> infos[i].timestamp > infos[j].timestamp
    ensures |Times(infos)| == |infos|
    decreases |infos|
  {
    if infos != [] {
      var init, last := infos[..|infos| - 1], infos[|infos| - 1];
      TimesCount(init);
      assert forall i :: 0 <= i < |init| ==> init[i] == infos[i];
      assert Times(infos) == Times(init) + {last.timestamp};
    }
  }

  /** Dropping what is beyond the limit of a newest-first listing keeps exactly the newest. */
  lemma BeyondLimitIsOldest(v: Vault, infos: seq<BackupInfo>, m: int)
    requires m > 0 && |infos| == |v|
    requires forall i, j :: 0 <= i < j < |infos| ==> infos[i].timestamp > infos[j].timestamp
    requires forall i :: 0 <= i < |infos| ==> infos[i].timestamp in v
    ensures KeepsNewest(v, m, v - Times(BeyondLimit(infos, m)))
  {
    TimesCount(infos);
    var beyond := BeyondLimit(infos, m);
    TimesCount(beyond);
    BeyondIsOlder(infos, m);
    SubsetOfEqualSize(Times(infos), v.Keys);
    var kept := v - Times(beyond);
    assert kept.Keys == v.Keys - Times(beyond);
    assert |kept.Keys| == |v.Keys| - |Times(beyond)|;
  }

  lemma BeyondIsOlder(infos: seq<BackupInfo>, m: int)
    requires m > 0
    requires forall i, j :: 0 <= i < j < |infos| ==> infos[i].timestamp > infos[j].timestamp
    ensures Times(BeyondLimit(infos, m)) <= Times(infos)
    ensures forall t, u :: t in Times(infos) && t !in Times(BeyondLimit(infos, m)) && u in Times(BeyondLimit(infos, m)) ==> t > u
  {
    var beyond := BeyondLimit(infos, m);
    assert forall j :: 0 <= j < |beyond| ==> beyond[j] == infos[m + j];
    forall i | m <= i < |infos| ensures infos[i].timestamp in Times(beyond) {
      assert beyond[i - m] == infos[i];
    }
  }

  lemma SubsetOfEqualSize<T>(a: set<T>, b: set<T>)
    requires a <= b && |a| == |b|
    ensures a == b
  {
    if x :| x in b && x !in a {
      assert a <= b - {x};
      SubsetNotLarger(a, b - {x});
    }
  }

  /** Clean-up deletes the data and the metadata of exactly the listed victims. */
  lemma CleanupKeepsNewest(s: State, v: Vault, infos: seq<BackupInfo>, m: int) returns (kept: Vault)
    requires Holds(s, v) && (m > 0 ==> IsListing(s.store, infos))
    ensures Holds(s.(store := Evict(s.store, BeyondLimit(infos, m))), kept)
    ensures KeepsNewest(v, m, kept)
  {
    var victims := BeyondLimit(infos, m);
    if m > 0 {
      ListingShowsVault(s, v, infos);
      forall info | info in victims ensures info.id == BackupId(s.formats, info.timestamp) {
        assert info in infos && InfoOf(s, v, info);
      }
      forall i | 0 <= i < |infos| ensures infos[i].timestamp in v {
        assert infos[i] in infos && InfoOf(s, v, infos[i]);
      }
      EvictionRemoves(s, v, victims);
      BeyondLimitIsOldest(v, infos, m);
      kept := v - Times(victims);
    } else {
      assert Evict(s.store, victims) == s.store;
      kept := v;
    }
  }

  /** The newest of all is kept under every limit. */
  lemma NewestStays(v: Vault, t: nat, saved: Saved, m: int, kept: Vault)
    requires Before(v, t) && KeepsNewest(v[t := saved], m, kept)
    ensures t in kept && kept[t] == saved
    ensures m > 0 ==> |kept| == if |v| + 1 < m then |v| + 1 else m
  {
    var all := v[t := saved];
    assert all.Keys == v.Keys + {t};
    assert |all.Keys| == |v.Keys| + 1;
  }

  /** A failure-free CreateBackup adds its backup and keeps the newest of the result. */
  lemma CreateRetains(s: State, v: Vault, t: nat, description: string, w: Writes, s': State, infos: seq<BackupInfo>) returns (v': Vault)
    requires Holds(s, v) && Before(v, t) && w.data && w.meta
    requires Creates(s, t, description, w, s', infos)
    ensures Holds(s', v') && s'.config == s.config
    ensures KeepsNewest(v[t := Saved(description, s.config)], s.config.settings.maxBackups, v')
    ensures t in v' && v'[t] == Saved(description, s.config)
    ensures s.config.settings.maxBackups > 0 ==>
      |v'| == if |v| + 1 < s.config.settings.maxBackups then |v| + 1 else s.config.settings.maxBackups
  {
    var saved := Saved(description, s.config);
    WrittenHolds(s, v, t, description);
    v' := CleanupKeepsNewest(s.(store := Written(s, t, description)), v[t := saved], infos, s.config.settings.maxBackups);
    NewestStays(v, t, saved, s.config.settings.maxBackups, v');
  }

  /** A CreateBackup whose writes fail leaves every existing backup intact and adds none. */
  lemma FailedCreateKeepsVault(s: State, v: Vault, t: nat, description: string, w: Writes, s': State, infos: seq<BackupInfo>)
    requires Holds(s, v) && Before(v, t) && !(w.data && w.meta)
    requires Creates(s, t, description, w, s', infos)
    ensures Holds(s', v) && s'.config == s.config
  {
    if w.data {
      var p := PlacesIn(s.store.backend, s.formats);
      VaultElsewhere(s.store.data, v, p, s.formats, IsMetaIn(s.store.backend), p.data(t), ConfigBlob(s.config));
    }
  }

  /** What one operation does to the vault: nothing, or one more backup at time `t` and clean-up with limit `m`. */
  ghost predicate Becomes(v: Vault, made: Option<Saved>, t: nat, m: int, v': Vault) {
    if made.None? then v' == v else KeepsNewest(v[t := made.value], m, v')
  }

  /** The backup a CreateBackup makes, unless one of its writes fails. */
  function MadeBy(s: State, description: string, w: Writes): Option<Saved> {
    if w.data && w.meta then Some(Saved(description, s.config)) else None
  }

  lemma CreateKeepsVault(s: State, v: Vault, t: nat, description: string, w: Writes, s': State, infos: seq<BackupInfo>) returns (v': Vault)
    requires Holds(s, v) && Before(v, t)
    requires Creates(s, t, description, w, s', infos)
    ensures Holds(s', v') && Before(v', t + 1) && s'.config == s.config
    ensures Becomes(v, MadeBy(s, description, w), t, s.config.settings.maxBackups, v')
    ensures s'.configPath == s.configPath && s'.configFile == s.configFile && s'.formats == s.formats && s'.store.backend == s.store.backend
  {
    if w.data && w.meta {
      v' := CreateRetains(s, v, t, description, w, s', infos);
      EvictKeepsBackend(Written(s, t, description), BeyondLimit(infos, s.config.settings.maxBackups));
    } else {
      FailedCreateKeepsVault(s, v, t, description, w, s', infos);
      v' := v;
    }
  }

  // ---- Saving and restoring ----

  lemma SaveKeepsVault(s: State, v: Vault)
    requires Holds(s, v)
    ensures Holds(s.Saved(), v)
    ensures s.Saved().config == s.config && s.Saved().Persisted() == Some(ConfigBlob(s.config))
  {
    if s.configPath == "" {
      VaultElsewhere(s.store.data, v, PlacesIn(s.store.backend, s.formats), s.formats, IsMetaIn(s.store.backend),
                     s.store.Locate("config"), ConfigBlob(s.config));
    }
  }

  /** Restoring does to the vault what its safety backup does, whatever the id and whatever writes fail. */
  lemma RestoreKeepsVault(s: State, v: Vault, id: string, t: nat, w: Writes, s': State, infos: seq<BackupInfo>) returns (v': Vault)
    requires Holds(s, v) && Before(v, t)
    requires Restores(s, id, t, w, s', infos)
    ensures Holds(s', v') && Before(v', t + 1) && s'.formats == s.formats && s'.store.backend == s.store.backend
    ensures Becomes(v, if Restorable(s.store, id).Some? then MadeBy(s, SAFETY, w) else None, t, s.config.settings.maxBackups, v')
    ensures var found := Restorable(s.store, id);
            found.Some? ==> s'.config == found.value && (w.save ==> s'.Persisted() == Some(ConfigBlob(found.value)))
  {
    var found := Restorable(s.store, id);
    if found.None? {
      v' := v;
    } else {
      var mid :| Creates(s, t, SAFETY, w, mid, infos) &&
        var restored := mid.(config := found.value);
        s' == if w.save then restored.Saved() else restored;
      v' := CreateKeepsVault(s, v, t, SAFETY, w, mid, infos);
      SaveKeepsVault(mid.(config := found.value), v');
    }
  }

  lemma BackupIsRestorable(s: State, v: Vault, t: nat)
    requires Holds(s, v) && t in v
    ensures Restorable(s.store, BackupId(s.formats, t)) == Some(v[t].config)
  {
    assert PlacesIn(s.store.backend, s.formats).data(t) in s.store.data;
  }

  /** A backup just made is there, with the configuration it was made from. */
  lemma MadeIsKept(v: Vault, made: Saved, t: nat, m: int, v': Vault)
    requires Before(v, t) && Becomes(v, Some(made), t, m, v')
    ensures t in v' && v'[t] == made
  {
    NewestStays(v, t, made, m, v');
  }

  /**
   Restoring an existing backup sets the configuration in memory and the persisted one to
   what the vault has for it, even if making room for the safety backup evicts it.
   */
  lemma RestoreSetsBoth(s: State, v: Vault, t0: nat, t: nat, w: Writes, s': State, infos: seq<BackupInfo>) returns (v': Vault)
    requires Holds(s, v) && Before(v, t) && t0 in v && w.save
    requires Restores(s, BackupId(s.formats, t0), t, w, s', infos)
    ensures s'.config == v[t0].config && s'.Persisted() == Some(ConfigBlob(v[t0].config))
    ensures Holds(s', v') && Before(v', t + 1) && s'.formats == s.formats
    ensures w.data && w.meta ==> t in v' && v'[t].config == s.config
  {
    BackupIsRestorable(s, v, t0);
    v' := RestoreKeepsVault(s, v, BackupId(s.formats, t0), t, w, s', infos);
    if w.data && w.meta {
      MadeIsKept(v, Saved(SAFETY, s.config), t, s.config.settings.maxBackups, v');
    }
  }
}
