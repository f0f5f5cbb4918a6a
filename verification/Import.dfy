/** Importing servers over others. */
module Import {
  // What is kept, what is replaced, and what an import that fails leaves behind.

  import opened Common
  import opened Types

  type Servers = map<string, Server>

  datatype Options = Options(replace: bool, overwriteExisting: bool, skipInvalid: bool)

  /** Absent unless one was set on the engine */
  type Validator = Option<(string, ServerConfig) -> bool>

  /** How an import ends and what it leaves in memory; a panic is a write to a nil map, which stays nil. */
  datatype Outcome = Done(memory: Option<Servers>) | Rejected(memory: Option<Servers>) | Panicked(memory: Option<Servers>)

  /** The engine's servers, which may be a nil map, and what is imported over them. */
  datatype Job = Job(current: Option<Servers>, parsed: Servers, options: Options, validator: Validator)
  {
    /** Replace mode starts from a new, empty map. */
    function Base(): Option<Servers> {
      if options.replace then Some(map[]) else current
    }

    function Existing(): Servers {
      if Base().Some? then Base().value else map[]
    }

    predicate Considered(name: string) {
      name in parsed && (name !in Existing() || options.overwriteExisting)
    }

    predicate Valid(name: string)
      requires name in parsed
    {
      validator.None? || validator.value(name, parsed[name].config)
    }

    predicate Imports(name: string) {
      Considered(name) && Valid(name)
    }

    predicate Rejects(name: string) {
      Considered(name) && !Valid(name) && !options.skipInvalid
    }

    /** The import ends at this name: with an error, or by writing to the nil map. */
    predicate Stops(name: string) {
      Rejects(name) || (Imports(name) && Base().None?)
    }

    /** The names an import in this order gets past. */
    function Passed(order: seq<string>): seq<string> {
      if order == [] || Stops(order[0]) then [] else [order[0]] + Passed(order[1..])
    }

    /** What these names contribute. */
    function Taken(passed: set<string>): Servers {
      map name | name in passed && Imports(name) :: parsed[name]
    }

    /** Memory once these names have been passed. */
    function After(passed: set<string>): Option<Servers> {
      if Base().None? then None
      else Some(Existing() + Taken(passed))
    }

    function OutcomeIn(order: seq<string>): Outcome {
      var passed := Passed(order);
      var memory := After(set name | name in passed);
      if |passed| >= |order| then Done(memory)
      else if Rejects(order[|passed|]) then Rejected(memory)
      else Panicked(memory)
    }

    /** Some iteration order makes the import end like this. */
    ghost predicate CanEnd(outcome: Outcome) {
      exists order :: IsOrdering(order, parsed.Keys) && outcome == OutcomeIn(order)
    }

    ghost predicate Leaves(memory: Option<Servers>) {
      forall order :: IsOrdering(order, parsed.Keys) ==> OutcomeIn(order).memory == memory
    }
  }

  // ---- The loop ----

  lemma PassName(job: Job, passed: set<string>, name: string)
    requires name in job.parsed && name !in passed && !job.Stops(name)
    ensures job.After(passed + {name}) ==
            if job.Imports(name) then Some(job.After(passed).value[name := job.parsed[name]]) else job.After(passed)
  {
    assert job.Taken(passed + {name}) ==
           if job.Imports(name) then job.Taken(passed)[name := job.parsed[name]] else job.Taken(passed);
    if job.Imports(name) {
      var value := job.parsed[name];
      assert job.Existing() + job.Taken(passed)[name := value] == (job.Existing() + job.Taken(passed))[name := value];
    }
  }

  lemma {:induction false} AllPassed(job: Job, order: seq<string>)
    requires forall name :: name in order ==> !job.Stops(name)
    ensures job.Passed(order) == order
    decreases |order|
  {
    if order != [] {
      assert order[0] in order && forall name :: name in order[1..] ==> name in order;
      AllPassed(job, order[1..]);
    }
  }

  /** The import gets past everything before the first name that stops it. */
  lemma {:induction false} StopsAt(job: Job, before: seq<string>, name: string, rest: seq<string>)
    requires job.Stops(name) && forall n :: n in before ==> !job.Stops(n)
    ensures job.Passed(before + [name] + rest) == before
    decreases |before|
  {
    var order := before + [name] + rest;
    if before != [] {
      assert before[0] in before && forall n :: n in before[1..] ==> n in before;
      StopsAt(job, before[1..], name, rest);
      assert order[1..] == before[1..] + [name] + rest;
    }
  }

  ghost function SetOf(names: seq<string>): set<string> {
    set name | name in names
  }

  lemma DoneWithAll(job: Job, order: seq<string>)
    requires IsOrdering(order, job.parsed.Keys) && forall name :: name in order ==> !job.Stops(name)
    ensures job.OutcomeIn(order) == Done(job.After(job.parsed.Keys))
  {
    AllPassed(job, order);
    assert SetOf(order) == job.parsed.Keys;
  }

  lemma StoppedAt(job: Job, before: seq<string>, name: string, rest: seq<string>)
    requires job.Stops(name) && forall n :: n in before ==> !job.Stops(n)
    ensures job.OutcomeIn(before + [name] + rest) ==
            if job.Rejects(name) then Rejected(job.After(SetOf(before))) else Panicked(job.After(SetOf(before)))
  {
    StopsAt(job, before, name, rest);
    assert (before + [name] + rest)[|before|] == name;
  }

  /** The keys not visited yet complete any order in which the others came first. */
  lemma Completed(before: seq<string>, keys: set<string>, name: string) returns (rest: seq<string>)
    requires IsOrdering(before, SetOf(before)) && SetOf(before) <= keys && name in keys && name !in before
    ensures IsOrdering(before + [name] + rest, keys)
  {
    rest := SomeOrdering(keys - SetOf(before) - {name});
    OrderingNext(before, SetOf(before), name, SetOf(before) + {name});
    OrderingAppend(before + [name], SetOf(before) + {name}, rest, keys - SetOf(before) - {name}, keys);
  }

  lemma NothingTaken(job: Job)
    ensures job.After({}) == job.Base()
  {
    assert job.Taken({}) == map[];
    assert job.Existing() + map[] == job.Existing();
  }

  /** One iteration: the server is skipped or imported, or the import stops at it. */
  method Visit(job: Job, ghost passed: set<string>, name: string, memory: Option<Servers>) returns (stops: bool, after: Option<Servers>)
    requires name in job.parsed && name !in passed && memory == job.After(passed)
    ensures stops <==> job.Stops(name)
    ensures after == if stops then memory else job.After(passed + {name})
  {
    var server := job.parsed[name];
    var present := memory.Some? && name in memory.value;
    assert present == (name in job.Existing());
    after := memory;
    stops := false;
    if !present || job.options.overwriteExisting {
      var valid := job.validator.None? || job.validator.value(name, server.config);
      if !valid {
        stops := !job.options.skipInvalid;
      } else if memory.None? {
        stops := true;
      } else {
        after := Some(memory.value[name := server]);
      }
    }
    if !stops {
      PassName(job, passed, name);
    }
  }

  /** The parsed servers are visited in an arbitrary order. */
  method ImportServers(job: Job) returns (outcome: Outcome)
    ensures job.CanEnd(outcome)
    ensures outcome.Done? && (job.options.replace || job.current.Some?) ==> outcome.memory.Some? && Imported(job, outcome.memory.value)
  {
    var memory := job.Base();
    ghost var order: seq<string> := [];
    NothingTaken(job);
    var pending := job.parsed.Keys;
    ghost var done: set<string> := {};
    while pending != {}
      invariant pending <= job.parsed.Keys && done == job.parsed.Keys - pending
      invariant IsOrdering(order, done) && memory == job.After(done)
      invariant forall name :: name in order ==> !job.Stops(name)
      decreases |pending|
    {
      var name :| name in pending;
      var stops;
      stops, memory := Visit(job, done, name, memory);
      if stops {
        assert SetOf(order) == done;
        outcome := StopHere(job, order, name, memory);
        return;
      }
      OrderingNext(order, done, name, done + {name});
      order, done := order + [name], done + {name};
      pending := pending - {name};
    }
    assert done == job.parsed.Keys;
    DoneWithAll(job, order);
    outcome := Done(memory);
    DoneMeans(job, order);
  }

  method StopHere(job: Job, ghost before: seq<string>, name: string, memory: Option<Servers>) returns (outcome: Outcome)
    requires job.Stops(name) && name !in before && (forall n :: n in before ==> !job.Stops(n))
    requires IsOrdering(before, SetOf(before)) && SetOf(before) <= job.parsed.Keys && memory == job.After(SetOf(before))
    ensures job.CanEnd(outcome) && !outcome.Done?
  {
    ghost var rest := Completed(before, job.parsed.Keys, name);
    StoppedAt(job, before, name, rest);
    outcome := if job.Rejects(name) then Rejected(memory) else Panicked(memory);
  }

  // ---- Which imports end how ----

  /** In whatever order, an import gets through if and only if no server stops it; then the order does not show. */
  lemma SucceedsExactly(job: Job, order: seq<string>)
    requires IsOrdering(order, job.parsed.Keys)
    ensures job.OutcomeIn(order).Done? <==> forall name :: name in job.parsed ==> !job.Stops(name)
    ensures job.OutcomeIn(order).Done? ==> job.OutcomeIn(order) == Done(job.After(job.parsed.Keys))
  {
    if name :| name in order && job.Stops(name) {
      var before, last, rest := FirstStop(job, order);
      StoppedAt(job, before, last, rest);
    } else {
      DoneWithAll(job, order);
    }
  }

  lemma {:induction false} FirstStop(job: Job, order: seq<string>) returns (before: seq<string>, name: string, rest: seq<string>)
    requires exists n :: n in order && job.Stops(n)
    ensures order == before + [name] + rest && job.Stops(name) && forall n :: n in before ==> !job.Stops(n)
    decreases |order|
  {
    if job.Stops(order[0]) {
      before, name, rest := [], order[0], order[1..];
    } else {
      before, name, rest := FirstStop(job, order[1..]);
      before := [order[0]] + before;
      assert order == [order[0]] + order[1..];
    }
  }

  /** Whichever server comes first, there is an order that starts with it. */
  lemma StartingWith(job: Job, name: string) returns (rest: seq<string>)
    requires name in job.parsed
    ensures IsOrdering([name] + rest, job.parsed.Keys)
  {
    rest := Completed([], job.parsed.Keys, name);
    assert [] + [name] == [name];
  }

  /** A panic needs the nil map and something to import; it is certain if no server is rejected. */
  lemma PanicsExactly(job: Job)
    ensures (exists order :: IsOrdering(order, job.parsed.Keys) && job.OutcomeIn(order).Panicked?)
            <==> job.current.None? && !job.options.replace && exists name :: job.Imports(name)
    ensures (forall order :: IsOrdering(order, job.parsed.Keys) ==> job.OutcomeIn(order).Panicked?)
            <==> job.current.None? && !job.options.replace && (exists name :: job.Imports(name)) && forall name :: !job.Rejects(name)
  {
    var some := SomeOrdering(job.parsed.Keys);
    forall order | IsOrdering(order, job.parsed.Keys) && job.OutcomeIn(order).Panicked?
      ensures job.Base().None? && exists name :: job.Imports(name)
    {
      PanicMeans(job, order);
    }
    if job.Base().None? {
      if name :| job.Imports(name) {
        var order := Ends(job, name);
        if forall n :: !job.Rejects(n) {
          forall o | IsOrdering(o, job.parsed.Keys) ensures job.OutcomeIn(o).Panicked? {
            SucceedsExactly(job, o);
          }
        }
      }
      if name :| job.Rejects(name) {
        var order := Ends(job, name);
      }
    }
  }

  lemma PanicMeans(job: Job, order: seq<string>)
    requires IsOrdering(order, job.parsed.Keys) && job.OutcomeIn(order).Panicked?
    ensures job.Base().None? && exists name :: job.Imports(name)
  {
    SucceedsExactly(job, order);
    var n :| n in job.parsed && job.Stops(n);
    assert n in order;
    var before, name, rest := FirstStop(job, order);
    StoppedAt(job, before, name, rest);
    assert job.Imports(name);
  }

  /** An import that meets this server first ends right there. */
  lemma Ends(job: Job, name: string) returns (order: seq<string>)
    requires job.Stops(name)
    ensures IsOrdering(order, job.parsed.Keys)
    ensures job.OutcomeIn(order) == if job.Rejects(name) then Rejected(job.After({})) else Panicked(job.After({}))
  {
    var rest := StartingWith(job, name);
    order := [name] + rest;
    StoppedAt(job, [], name, rest);
    assert [] + [name] + rest == order && SetOf([]) == {};
  }

  // ---- What a successful import leaves ----

  /** No validator is set, or it accepts the server. */
  predicate Acceptable(job: Job, name: string)
    requires name in job.parsed
  {
    match job.validator
    case None => true
    case Some(accepts) => accepts(name, job.parsed[name].config)
  }

  /** In replace mode, the acceptable servers of the file; otherwise the current ones, and over them, where that is allowed, the acceptable ones. */
  ghost predicate Imported(job: Job, after: Servers) {
    forall name ::
      if job.options.replace || job.current.None? || name !in job.current.value then
        && (name in after <==> name in job.parsed && Acceptable(job, name))
        && (name in after ==> after[name] == job.parsed[name])
      else
        && name in after
        && after[name] == if name in job.parsed && job.options.overwriteExisting && Acceptable(job, name)
                          then job.parsed[name] else job.current.value[name]
  }

  /** What a successful import leaves, name by name; over a nil map it leaves the nil map. */
  lemma DoneMeans(job: Job, order: seq<string>)
    requires IsOrdering(order, job.parsed.Keys) && job.OutcomeIn(order).Done?
    ensures var after := job.OutcomeIn(order).memory;
            if job.options.replace || job.current.Some? then after.Some? && Imported(job, after.value) else after.None?
  {
    SucceedsExactly(job, order);
    if job.options.replace || job.current.Some? {
      TakenOver(job, job.Existing() + job.Taken(job.parsed.Keys));
    }
  }

  lemma TakenOver(job: Job, after: Servers)
    requires after == job.Existing() + job.Taken(job.parsed.Keys) && (job.options.replace || job.current.Some?)
    ensures Imported(job, after)
  {
  }

  /**
   An import succeeds, in every order, if and only if every server that is not skipped as
   present is acceptable or may be skipped, and none has to be written to a nil map.
   */
  lemma DoneExactly(job: Job, order: seq<string>)
    requires IsOrdering(order, job.parsed.Keys)
    ensures job.OutcomeIn(order).Done? <==>
              forall name :: name in job.parsed && (job.options.replace || job.current.None? || name !in job.current.value || job.options.overwriteExisting) ==>
                if Acceptable(job, name) then job.options.replace || job.current.Some? else job.options.skipInvalid
  {
    SucceedsExactly(job, order);
    forall name | name in job.parsed
      ensures !job.Stops(name) <==>
        ((job.options.replace || job.current.None? || name !in job.current.value || job.options.overwriteExisting) ==>
           if Acceptable(job, name) then job.options.replace || job.current.Some? else job.options.skipInvalid)
    {
    }
  }

  // ---- What is left behind ----

  /** Importing the same file again changes nothing, in every mode and every order. */
  lemma ImportTwice(job: Job, first: seq<string>, second: seq<string>)
    requires IsOrdering(first, job.parsed.Keys) && IsOrdering(second, job.parsed.Keys)
    requires job.OutcomeIn(first).Done?
    ensures job.(current := job.OutcomeIn(first).memory).OutcomeIn(second) == job.OutcomeIn(first)
  {
    SucceedsExactly(job, first);
    ImportedAgain(job);
    SucceedsExactly(job.(current := job.After(job.parsed.Keys)), second);
  }

  lemma ImportedAgain(job: Job)
    requires forall name :: name in job.parsed ==> !job.Stops(name)
    ensures var again := job.(current := job.After(job.parsed.Keys));
            && (forall name :: name in job.parsed ==> !again.Stops(name))
            && again.After(job.parsed.Keys) == job.After(job.parsed.Keys)
  {
    var once := job.After(job.parsed.Keys);
    var again := job.(current := once);
    if job.options.replace {
      assert again.Taken(job.parsed.Keys) == job.Taken(job.parsed.Keys);
    } else if once.Some? {
      forall name | again.Imports(name) ensures name in once.value && once.value[name] == job.parsed[name] {
        assert job.Imports(name);
      }
      NothingNew(again, job.parsed.Keys);
    }
    forall name | name in job.parsed ensures !again.Stops(name) {
      assert !job.Stops(name);
    }
  }

  /** Outside replace mode, a server that the file does not name, or may not overwrite, is kept as it was, however the import ends. */
  lemma ImportPreserves(job: Job, order: seq<string>, name: string)
    requires !job.options.replace && job.current.Some? && name in job.current.value
    requires name !in job.parsed || !job.options.overwriteExisting
    ensures var memory := job.OutcomeIn(order).memory;
            memory.Some? && name in memory.value && memory.value[name] == job.current.value[name]
  {
    assert !job.Imports(name);
  }

  /**
   A rejected import can leave memory changed: in an order that reaches some acceptable
   server first, that server is in. Memory is as it was in every order if and only if
   nothing was cleared and every server that would be imported is there already.
   */
  lemma RejectedImportTraces(job: Job, rejected: string)
    requires job.Rejects(rejected)
    ensures forall order :: IsOrdering(order, job.parsed.Keys) ==> !job.OutcomeIn(order).Done?
    ensures job.Leaves(job.current) <==>
            && job.Base() == job.current
            && (job.current.Some? ==>
                  forall name :: job.Imports(name) ==> name in job.current.value && job.current.value[name] == job.parsed[name])
  {
    forall order | IsOrdering(order, job.parsed.Keys) ensures !job.OutcomeIn(order).Done? {
      SucceedsExactly(job, order);
    }
    if job.Leaves(job.current) {
      NothingPassed(job, rejected);
      if job.current.Some? {
        forall name | job.Imports(name) ensures name in job.current.value && job.current.value[name] == job.parsed[name] {
          PassedFirst(job, rejected, name);
        }
      }
    }
    if job.Base() == job.current && (job.current.Some? ==>
         forall name :: job.Imports(name) ==> name in job.current.value && job.current.value[name] == job.parsed[name])
    {
      forall order | IsOrdering(order, job.parsed.Keys) ensures job.OutcomeIn(order).memory == job.current {
        NothingNew(job, SetOf(job.Passed(order)));
      }
    }
  }

  lemma NothingNew(job: Job, passed: set<string>)
    requires job.Base() == job.current && (job.current.Some? ==>
               forall name :: job.Imports(name) ==> name in job.current.value && job.current.value[name] == job.parsed[name])
    ensures job.After(passed) == job.current
  {
    if job.current.Some? {
      assert job.Existing() + job.Taken(passed) == job.Existing();
    }
  }

  lemma NothingPassed(job: Job, rejected: string)
    requires job.Rejects(rejected) && job.Leaves(job.current)
    ensures job.Base() == job.current
  {
    var order := Ends(job, rejected);
    NothingTaken(job);
  }

  /** An acceptable server visited just before the rejected one is in memory when the import fails. */
  lemma PassedFirst(job: Job, rejected: string, name: string)
    requires job.Rejects(rejected) && job.Leaves(job.current) && job.Base() == job.current && job.current.Some? && job.Imports(name)
    ensures name in job.current.value && job.current.value[name] == job.parsed[name]
  {
    var rest := Completed([name], job.parsed.Keys, rejected);
    var order := [name] + [rejected] + rest;
    assert !job.Stops(name);
    StoppedAt(job, [name], rejected, rest);
    assert name in SetOf([name]);
    assert job.OutcomeIn(order).memory == job.current;
  }
}
