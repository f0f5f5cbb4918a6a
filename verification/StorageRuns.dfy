/** Running the two storages side by side. */
module StorageRuns {
  import opened Common
  import opened Paths
  import opened Storage

  /** One operation on a FileStorage, without faults */
  method OnFiles<D>(storage: FileStorage<D>, op: Op<D>) returns (answer: Answer<D>)
    modifies storage
    ensures (storage.Contents(), answer) == Step(old(storage.Contents()), op)
  {
    match op
    case Read(key) => answer := storage.Read(key, false);
    case Write(key, d) => answer := storage.Write(key, d, false);
    case Delete(key) => answer := storage.Delete(key, false);
    case List(prefix) =>
      var keys := storage.List(prefix);
      answer := Listed(set k | k in keys, |keys|);
      assert answer.keys == storage.Contents().Keys(prefix);
  }

  /** The same operation on a MemoryStorage */
  method InMemory<D>(storage: MemoryStorage<D>, op: Op<D>) returns (answer: Answer<D>)
    modifies storage
    ensures (storage.Contents(), answer) == Step(old(storage.Contents()), op)
  {
    match op
    case Read(key) =>
      var found := storage.Read(key);
      answer := if found.Some? then Data(found.value) else KeyNotFound;
    case Write(key, d) =>
      storage.Write(key, d);
      answer := Done;
    case Delete(key) =>
      var ok := storage.Delete(key);
      answer := if ok then Done else KeyNotFound;
    case List(prefix) =>
      var keys := storage.List(prefix);
      answer := Listed(set k | k in keys, |keys|);
      assert answer.keys == storage.Contents().Keys(prefix);
  }

  /** Two empty storages, driven by the same operations on keys without slashes, give the same answers. */
  method SideBySide<D>(files: FileStorage<D>, memory: MemoryStorage<D>, ops: seq<Op<D>>) returns (a: seq<Answer<D>>, b: seq<Answer<D>>)
    requires files.files == map[] && memory.data == map[]
    requires forall op :: op in ops ==> op.List? || CanonicalKey(op.key)
    modifies files, memory
    ensures a == b && |a| == |ops|
  {
    a, b := [], [];
    for i := 0 to |ops|
      invariant a == b && |a| == i
      invariant Represents(files.Contents(), memory.Contents())
    {
      assert ops[i] in ops;
      CanonicalOp(ops[i]);
      StepRefines(files.Contents(), memory.Contents(), ops[i]);
      var fromFiles := OnFiles(files, ops[i]);
      var fromMemory := InMemory(memory, ops[i]);
      a, b := a + [fromFiles], b + [fromMemory];
    }
  }

  lemma CanonicalOp<D>(op: Op<D>)
    requires op.List? || CanonicalKey(op.key)
    ensures PlainOp(op) && CanonOp(op) == op
  {
    if !op.List? {
      StemOfCanon(op.key);
    }
  }
}
