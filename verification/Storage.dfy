/**
 The two storages. `MemoryStorage` is a plain map from keys to data; `FileStorage`
 keeps one file per key under a base directory. On plain keys the second behaves
 like the first over canonical keys.
 */
module Storage {
  import opened Common
  import opened Paths

  /** How a backend turns keys into locations and back; a walk sees only the visible locations. */
  datatype Backend = Backend(base: string, locate: string -> string, visible: string -> bool, keyOf: string -> string)

  function Memory(): Backend {
    Backend("", key => key, location => true, location => location)
  }

  /** The walk only sees files below the base directory, and names them relative to it. */
  function Files(base: string): Backend {
    Backend(base, key => KeyToPath(base, key), location => Below(base, location),
            location => if Below(base, location) then PathToKey(Relative(base, location)) else location)
  }

  ghost predicate IsFiles(backend: Backend) {
    backend == Files(backend.base)
  }

  /** A storage as a value: which backend, and what is stored at which location. */
  datatype Store<D> = Store(backend: Backend, data: map<string, D>) {

    function Locate(key: string): string {
      backend.locate(key)
    }

    predicate Visible(location: string) {
      backend.visible(location)
    }

    function KeyOf(location: string): string {
      backend.keyOf(location)
    }

    function Get(key: string): Option<D> {
      if Locate(key) in data then Some(data[Locate(key)]) else None
    }

    function Put(key: string, d: D): Store<D> {
      this.(data := data[Locate(key) := d])
    }

    function Remove(key: string): Store<D> {
      this.(data := data - {Locate(key)})
    }

    /** The locations that a listing with this prefix reports, each once. */
    function Matching(prefix: string): set<string> {
      set location | location in data && Visible(location) && prefix <= KeyOf(location)
    }

    function Keys(prefix: string): set<string> {
      set location | location in Matching(prefix) :: KeyOf(location)
    }
  }

  class MemoryStorage<D> {
    var data: map<string, D>

    ghost function Contents(): Store<D>
      reads this
    {
      Store(Memory(), data)
    }

    constructor ()
      ensures Contents() == Store(Memory(), map[])
    {
      data := map[];
    }

    method Read(key: string) returns (r: Option<D>)
      ensures r == Contents().Get(key)
      ensures r == if key in data then Some(data[key]) else None
    {
      if key !in data {
        return None;
      }
      return Some(data[key]);
    }

    method Write(key: string, d: D)
      modifies this
      ensures Contents() == old(Contents()).Put(key, d) && data == old(data)[key := d]
    {
      data := data[key := d];
    }

    /** Deleting a missing key is an error and changes nothing. */
    method Delete(key: string) returns (ok: bool)
      modifies this
      ensures Contents() == old(Contents()).Remove(key)
      ensures (ok <==> key in old(data)) && data == old(data) - {key}
    {
      if key !in data {
        assert data - {key} == data;
        return false;
      }
      data := data - {key};
      return true;
    }

    method List(prefix: string) returns (keys: seq<string>)
      ensures forall k :: k in keys <==> k in Contents().Keys(prefix)
      ensures |keys| == |Contents().Matching(prefix)|
      ensures forall k :: k in keys <==> k in data && prefix <= k
    {
      keys := [];
      ghost var contents := Contents();
      var pending := data.Keys;
      ghost var reported: set<string> := {};
      while pending != {}
        invariant pending <= contents.data.Keys
        invariant reported == contents.Matching(prefix) - pending && |keys| == |reported|
        invariant forall k :: k in keys <==> k in KeysOf(contents, reported)
        decreases |pending|
      {
        var key :| key in pending;
        VisitLocation(contents, prefix, pending, reported, key);
        assert contents.KeyOf(key) == key && contents.Visible(key);
        if prefix <= key {
          keys := keys + [key];
          reported := reported + {key};
        }
        pending := pending - {key};
      }
      MemoryKeys(data, prefix);
    }
  }

  class FileStorage<D> {
    const basePath: string
    var files: map<string, D>

    ghost function Contents(): Store<D>
      reads this
    {
      Store(Files(basePath), files)
    }

    constructor (basePath: string)
      ensures this.basePath == basePath && Contents() == Store(Files(basePath), map[])
    {
      this.basePath := basePath;
      files := map[];
    }

    /** `fault`: the file system fails for another reason than a missing file. */
    method Read(key: string, fault: bool) returns (r: Answer<D>)
      ensures r == if fault then Failed
                   else if KeyToPath(basePath, key) in files then Data(files[KeyToPath(basePath, key)]) else KeyNotFound
    {
      var path := KeyToPath(basePath, key);
      if fault {
        return Failed;
      }
      if path !in files {
        return KeyNotFound;
      }
      return Data(files[path]);
    }

    /** The file is replaced whole or not at all. */
    method Write(key: string, d: D, fault: bool) returns (r: Answer<D>)
      modifies this
      ensures r == if fault then Failed else Done
      ensures files == if fault then old(files) else old(files)[KeyToPath(basePath, key) := d]
    {
      if fault {
        return Failed;
      }
      files := files[KeyToPath(basePath, key) := d];
      return Done;
    }

    /** A missing file is an error of its own; after any error nothing has changed. */
    method Delete(key: string, fault: bool) returns (r: Answer<D>)
      modifies this
      ensures r == if fault then Failed else if KeyToPath(basePath, key) in old(files) then Done else KeyNotFound
      ensures files == if fault then old(files) else old(files) - {KeyToPath(basePath, key)}
    {
      var path := KeyToPath(basePath, key);
      if fault {
        return Failed;
      }
      if path !in files {
        assert files - {path} == files;
        return KeyNotFound;
      }
      files := files - {path};
      return Done;
    }

    method List(prefix: string) returns (keys: seq<string>)
      ensures forall k :: k in keys <==> k in Contents().Keys(prefix)
      ensures |keys| == |Contents().Matching(prefix)|
      ensures forall k :: k in keys <==>
        exists path :: path in files && Below(basePath, path) && PathToKey(Relative(basePath, path)) == k && prefix <= k
    {
      keys := [];
      ghost var contents := Contents();
      var pending := set path | path in files && Below(basePath, path);
      ghost var reported: set<string> := {};
      assert forall path :: path in contents.Matching(prefix) ==> path in pending;
      while pending != {}
        invariant pending <= contents.data.Keys
        invariant forall path :: path in pending ==> Below(basePath, path)
        invariant reported == contents.Matching(prefix) - pending && |keys| == |reported|
        invariant forall k :: k in keys <==> k in KeysOf(contents, reported)
        decreases |pending|
      {
        var path :| path in pending;
        VisitLocation(contents, prefix, pending, reported, path);
        var key := PathToKey(Relative(basePath, path));
        assert contents.KeyOf(path) == key && contents.Visible(path);
        if prefix <= key {
          keys := keys + [key];
          reported := reported + {path};
        }
        pending := pending - {path};
      }
      FileKeys(basePath, files, prefix);
    }
  }

  lemma MemoryKeys<D>(data: map<string, D>, prefix: string)
    ensures forall k :: k in Store(Memory(), data).Keys(prefix) <==> k in data && prefix <= k
  {
    var st := Store(Memory(), data);
    forall k ensures k in st.Keys(prefix) <==> k in data && prefix <= k {
      assert st.KeyOf(k) == k;
    }
  }

  lemma FileKeys<D>(base: string, files: map<string, D>, prefix: string)
    ensures forall k :: k in Store(Files(base), files).Keys(prefix) <==>
      exists path :: path in files && Below(base, path) && PathToKey(Relative(base, path)) == k && prefix <= k
  {
    var st := Store(Files(base), files);
    forall path | path in files ensures path in st.Matching(prefix) <==> Below(base, path) && prefix <= PathToKey(Relative(base, path)) {
    }
  }

  /** One more location visited by a listing: it is reported if it is visible and its key matches. */
  lemma VisitLocation<D>(st: Store<D>, prefix: string, pending: set<string>, reported: set<string>, location: string)
    requires location in pending && location in st.data && reported == st.Matching(prefix) - pending
    ensures var matches := st.Visible(location) && prefix <= st.KeyOf(location);
            && st.Matching(prefix) - (pending - {location}) == (if matches then reported + {location} else reported)
            && |reported + {location}| == |reported| + 1
            && (matches ==> KeysOf(st, reported + {location}) == KeysOf(st, reported) + {st.KeyOf(location)})
  {
    var matches := st.Visible(location) && prefix <= st.KeyOf(location);
    assert location in st.Matching(prefix) <==> matches;
    VisitOne(st.Matching(prefix), pending, location);
    if matches {
      KeysOfNext(st, reported, location);
    }
  }

  lemma VisitOne(all: set<string>, pending: set<string>, location: string)
    requires location in pending
    ensures all - (pending - {location}) == if location in all then all - pending + {location} else all - pending
    ensures |all - pending + {location}| == |all - pending| + 1
  {
  }

  lemma KeysOfNext<D>(st: Store<D>, reported: set<string>, location: string)
    requires st.Visible(location)
    ensures KeysOf(st, reported + {location}) == KeysOf(st, reported) + {st.KeyOf(location)}
  {
  }

  ghost function KeysOf<D>(st: Store<D>, locations: set<string>): set<string> {
    set location | location in locations && st.Visible(location) :: st.KeyOf(location)
  }

  // ---- Runs ----

  datatype Op<D> = Read(key: string) | Write(key: string, d: D) | Delete(key: string) | List(prefix: string)

  datatype Answer<D> = Data(d: D) | Done | KeyNotFound | Failed | Listed(keys: set<string>, count: nat)

  ghost function Step<D>(st: Store<D>, op: Op<D>): (Store<D>, Answer<D>) {
    match op
    case Read(key) => (st, if st.Get(key).Some? then Data(st.Get(key).value) else KeyNotFound)
    case Write(key, d) => (st.Put(key, d), Done)
    case Delete(key) => (st.Remove(key), if st.Get(key).Some? then Done else KeyNotFound)
    case List(prefix) => (st, Listed(st.Keys(prefix), |st.Matching(prefix)|))
  }

  ghost function Answers<D>(st: Store<D>, ops: seq<Op<D>>): seq<Answer<D>>
    decreases |ops|
  {
    if ops == [] then []
    else
      var (next, answer) := Step(st, ops[0]);
      [answer] + Answers(next, ops[1..])
  }

  /** The same operation on the canonical form of its key. */
  function CanonOp<D>(op: Op<D>): Op<D> {
    match op
    case Read(key) => Read(Canon(key))
    case Write(key, d) => Write(Canon(key), d)
    case Delete(key) => Delete(Canon(key))
    case List(prefix) => op
  }

  function CanonOps<D>(ops: seq<Op<D>>): seq<Op<D>> {
    seq(|ops|, i requires 0 <= i < |ops| => CanonOp(ops[i]))
  }

  ghost predicate PlainOp<D>(op: Op<D>) {
    op.List? || PlainKey(op.key)
  }

  /** `files` is the image of `mem` under an injective placement of keys. */
  ghost predicate Image<D>(files: map<string, D>, mem: map<string, D>, place: string -> string) {
    && (forall k :: k in mem ==> place(k) in files && files[place(k)] == mem[k])
    && (forall path :: path in files ==> exists k :: k in mem && place(k) == path)
  }

  lemma ImagePut<D>(files: map<string, D>, mem: map<string, D>, place: string -> string, key: string, d: D)
    requires Image(files, mem, place)
    requires forall k :: k in mem && place(k) == place(key) ==> k == key
    ensures Image(files[place(key) := d], mem[key := d], place)
  {
    var files', mem' := files[place(key) := d], mem[key := d];
    forall path | path in files' ensures exists k :: k in mem' && place(k) == path {
      if path == place(key) {
        assert key in mem';
      } else {
        var k :| k in mem && place(k) == path;
        assert k in mem';
      }
    }
  }

  lemma ImageRemove<D>(files: map<string, D>, mem: map<string, D>, place: string -> string, key: string)
    requires Image(files, mem, place)
    requires forall k :: k in mem && place(k) == place(key) ==> k == key
    ensures Image(files - {place(key)}, mem - {key}, place)
  {
    var mem' := mem - {key};
    forall path | path in files - {place(key)} ensures exists k :: k in mem' && place(k) == path {
      var k :| k in mem && place(k) == path;
      assert k in mem';
    }
  }

  /** As many files as keys, under an injective placement. */
  lemma ImageSize<K(!new)>(paths: set<string>, keys: set<K>, place: K -> string)
    requires forall path :: path in paths <==> exists k :: k in keys && place(k) == path
    requires forall j, k :: j in keys && k in keys && place(j) == place(k) ==> j == k
    ensures |paths| == |keys|
  {
    if keys == {} {
      assert paths == {};
    } else {
      var k :| k in keys;
      forall path | path in paths - {place(k)} ensures exists j :: j in keys - {k} && place(j) == path {
        var j :| j in keys && place(j) == path;
        assert j in keys - {k};
      }
      ImageSize(paths - {place(k)}, keys - {k}, place);
    }
  }

  ghost function Placement(base: string): string -> string {
    key => KeyToPath(base, key)
  }

  /** The files hold exactly the map's entries, each canonical key at its path. */
  ghost predicate Represents<D>(files: Store<D>, mem: Store<D>) {
    && IsFiles(files.backend) && mem.backend == Memory()
    && (forall k :: k in mem.data ==> CanonicalKey(k))
    && Image(files.data, mem.data, Placement(files.backend.base))
  }

  /** A plain key and its canonical form have one file, which listing names by the canonical form. */
  lemma CanonLocates(base: string, key: string)
    requires PlainKey(key)
    ensures var b := Files(base);
            && b.locate(key) == b.locate(Canon(key))
            && b.visible(b.locate(key)) && b.keyOf(b.locate(key)) == Canon(key)
    ensures CanonicalKey(Canon(key))
  {
    CanonIsCanonical(key);
    SameFile(base, key, Canon(key));
    PathRoundTrip(base, key);
  }

  lemma CanonicalKeyOf(base: string, key: string)
    requires CanonicalKey(key)
    ensures var b := Files(base); b.visible(b.locate(key)) && b.keyOf(b.locate(key)) == key
  {
    CanonLocates(base, key);
    StemOfCanon(key);
  }

  /** Reading a plain key from files is reading its canonical form from the map. */
  lemma RepresentsGet<D>(files: Store<D>, mem: Store<D>, key: string)
    requires Represents(files, mem) && PlainKey(key)
    ensures files.Get(key) == mem.Get(Canon(key))
  {
    CanonLocates(files.backend.base, key);
    var place := Placement(files.backend.base);
    if place(Canon(key)) in files.data {
      var k :| k in mem.data && place(k) == place(Canon(key));
      PlacementInjective(files.backend.base, k, Canon(key));
    }
  }

  /** Canonical keys have files of their own. */
  lemma PlacementInjective(base: string, j: string, k: string)
    requires CanonicalKey(j) && CanonicalKey(k)
    requires Placement(base)(j) == Placement(base)(k)
    ensures j == k
  {
    SameFile(base, j, k);
    StemOfCanon(j);
    StemOfCanon(k);
  }

  lemma RepresentsPut<D>(files: Store<D>, mem: Store<D>, key: string, d: D)
    requires Represents(files, mem) && PlainKey(key)
    ensures Represents(files.Put(key, d), mem.Put(Canon(key), d))
  {
    CanonLocates(files.backend.base, key);
    var place := Placement(files.backend.base);
    forall k | k in mem.data && place(k) == place(Canon(key)) ensures k == Canon(key) {
      PlacementInjective(files.backend.base, k, Canon(key));
    }
    ImagePut(files.data, mem.data, place, Canon(key), d);
  }

  lemma RepresentsRemove<D>(files: Store<D>, mem: Store<D>, key: string)
    requires Represents(files, mem) && PlainKey(key)
    ensures Represents(files.Remove(key), mem.Remove(Canon(key)))
  {
    CanonLocates(files.backend.base, key);
    var place := Placement(files.backend.base);
    forall k | k in mem.data && place(k) == place(Canon(key)) ensures k == Canon(key) {
      PlacementInjective(files.backend.base, k, Canon(key));
    }
    ImageRemove(files.data, mem.data, place, Canon(key));
  }

  lemma MatchingImage<D>(files: Store<D>, mem: Store<D>, prefix: string)
    requires Represents(files, mem)
    ensures forall path :: path in files.Matching(prefix) <==>
      exists k :: k in mem.Matching(prefix) && Placement(files.backend.base)(k) == path
  {
    var place := Placement(files.backend.base);
    forall k | k in mem.Matching(prefix) ensures place(k) in files.Matching(prefix) {
      PlacedMatches(files, mem, prefix, k);
    }
    forall path | path in files.Matching(prefix) ensures exists k :: k in mem.Matching(prefix) && place(k) == path {
      var k :| k in mem.data && place(k) == path;
      PlacedMatches(files, mem, prefix, k);
    }
  }

  lemma PlacedMatches<D>(files: Store<D>, mem: Store<D>, prefix: string, k: string)
    requires IsFiles(files.backend) && mem.backend == Memory() && CanonicalKey(k)
    requires k in mem.data && Placement(files.backend.base)(k) in files.data
    ensures Placement(files.backend.base)(k) in files.Matching(prefix) <==> k in mem.Matching(prefix)
  {
    CanonicalKeyOf(files.backend.base, k);
  }

  lemma RepresentsList<D>(files: Store<D>, mem: Store<D>, prefix: string)
    requires Represents(files, mem)
    ensures files.Keys(prefix) == mem.Keys(prefix)
    ensures |files.Matching(prefix)| == |mem.Matching(prefix)|
  {
    var place, keys := Placement(files.backend.base), mem.Matching(prefix);
    MatchingImage(files, mem, prefix);
    assert mem.Keys(prefix) == keys;
    forall k | k in keys ensures k in files.Keys(prefix) && files.KeyOf(place(k)) == k {
      CanonicalKeyOf(files.backend.base, k);
      assert place(k) in files.Matching(prefix) && files.KeyOf(place(k)) == k;
    }
    assert files.Keys(prefix) == keys;
    ImageSize(files.Matching(prefix), keys, place);
  }

  lemma {:induction false} StepRefines<D>(files: Store<D>, mem: Store<D>, op: Op<D>)
    requires Represents(files, mem) && PlainOp(op)
    ensures Represents(Step(files, op).0, Step(mem, CanonOp(op)).0)
    ensures Step(files, op).1 == Step(mem, CanonOp(op)).1
  {
    match op
    case Read(key) => RepresentsGet(files, mem, key);
    case Write(key, d) => RepresentsPut(files, mem, key, d);
    case Delete(key) =>
      RepresentsGet(files, mem, key);
      RepresentsRemove(files, mem, key);
    case List(prefix) => RepresentsList(files, mem, prefix);
  }

  /** Every run on files answers like the run on the plain map over canonical keys. */
  lemma {:induction false} RunsAgree<D>(files: Store<D>, mem: Store<D>, ops: seq<Op<D>>)
    requires Represents(files, mem)
    requires forall op :: op in ops ==> PlainOp(op)
    ensures Answers(files, ops) == Answers(mem, CanonOps(ops))
    decreases |ops|
  {
    if ops != [] {
      StepRefines(files, mem, ops[0]);
      assert forall op :: op in ops[1..] ==> op in ops;
      RunsAgree(Step(files, ops[0]).0, Step(mem, CanonOp(ops[0])).0, ops[1..]);
      assert CanonOps(ops)[1..] == CanonOps(ops[1..]);
    }
  }

  /** From empty, and on keys without slashes, the two storages cannot be told apart. */
  lemma FileStorageRefinesMemoryStorage<D>(base: string, ops: seq<Op<D>>)
    requires forall op :: op in ops ==> op.List? || CanonicalKey(op.key)
    ensures Answers(Store(Files(base), map[]), ops) == Answers(Store(Memory(), map[]), ops)
  {
    RunsAgree(Store(Files(base), map[]), Store(Memory(), map[]), ops);
    forall i | 0 <= i < |ops| ensures CanonOp(ops[i]) == ops[i] {
      assert ops[i] in ops;
      if !ops[i].List? {
        StemOfCanon(ops[i].key);
      }
    }
    assert CanonOps(ops) == ops;
  }
}
