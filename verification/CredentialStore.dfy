/**
 The credential stores.  Both keep nested maps from account to generation to secret; what a
 caller can observe is the flat map of their entries.
 */
module CredentialStore {
  import opened Options

  type Id = string

  datatype Secret = Secret(generation: nat, githubToken: string,
                           copilotToken: Option<string>, copilotExpiresAtMs: Option<int>)

  type Document = map<Id, map<nat, Secret>>

  type Credentials = map<(Id, nat), Secret>

  function Read(doc: Document, id: Id, generation: nat): Option<Secret> {
    if id in doc && generation in doc[id] then Some(doc[id][generation]) else None
  }

  function Lookup(creds: Credentials, id: Id, generation: nat): Option<Secret> {
    if (id, generation) in creds then Some(creds[(id, generation)]) else None
  }

  /** `readGeneration` answers from the document what it would answer from the flat map. */
  ghost predicate Represents(doc: Document, creds: Credentials) {
    forall id, generation: nat :: Read(doc, id, generation) == Lookup(creds, id, generation)
  }

  function Put(creds: Credentials, id: Id, generation: nat, value: Secret): Credentials {
    creds[(id, generation) := value]
  }

  function Without(creds: Credentials, id: Id): Credentials {
    map k | k in creds && k.0 != id :: creds[k]
  }

  predicate Referenced(refs: map<Id, nat>, k: (Id, nat)) {
    k.0 in refs && refs[k.0] == k.1
  }

  /** Pruning keeps exactly the referenced generations that exist. */
  function Pruned(creds: Credentials, refs: map<Id, nat>): Credentials {
    map k | k in creds && Referenced(refs, k) :: creds[k]
  }

  function Inserted(doc: Document, id: Id, generation: nat, value: Secret): Document {
    doc[id := (if id in doc then doc[id] else map[])[generation := value]]
  }

  lemma InsertionIsPut(doc: Document, creds: Credentials, id: Id, generation: nat, value: Secret)
    requires Represents(doc, creds)
    ensures Represents(Inserted(doc, id, generation, value), Put(creds, id, generation, value))
  {
    forall i, g: nat
      ensures Read(Inserted(doc, id, generation, value), i, g) == Lookup(Put(creds, id, generation, value), i, g)
    {
      assert Read(doc, i, g) == Lookup(creds, i, g);
    }
  }

  lemma DeletionIsWithout(doc: Document, creds: Credentials, id: Id)
    requires Represents(doc, creds)
    ensures Represents(doc - {id}, Without(creds, id))
  {
    forall i, g: nat ensures Read(doc - {id}, i, g) == Lookup(Without(creds, id), i, g) {
      assert Read(doc, i, g) == Lookup(creds, i, g);
    }
  }

  /** What is left for one account after pruning. */
  ghost predicate Kept(doc: Document, refs: map<Id, nat>, next: Document, id: Id) {
    forall g: nat :: Read(next, id, g) == if Referenced(refs, (id, g)) then Read(doc, id, g) else None
  }

  lemma KeepingIsPruning(doc: Document, creds: Credentials, refs: map<Id, nat>, next: Document)
    requires Represents(doc, creds)
    requires forall id :: Kept(doc, refs, next, id)
    ensures Represents(next, Pruned(creds, refs))
  {
    forall i, g: nat ensures Read(next, i, g) == Lookup(Pruned(creds, refs), i, g) {
      assert Kept(doc, refs, next, i);
      assert Read(doc, i, g) == Lookup(creds, i, g);
    }
  }

  class MemoryCredentialStore {
    var data: Document
    ghost var entries: Credentials

    ghost predicate Valid()
      reads this
    {
      Represents(data, entries)
    }

    constructor ()
      ensures Valid() && entries == map[]
    {
      data, entries := map[], map[];
    }

    method PutGeneration(id: Id, generation: nat, value: Secret)
      requires Valid()
      modifies this
      ensures Valid() && entries == Put(old(entries), id, generation, value)
      ensures forall i, g: nat ::
                Read(data, i, g) == if (i, g) == (id, generation) then Some(value) else Read(old(data), i, g)
    {
      InsertionIsPut(data, entries, id, generation, value);
      hide Represents;
      var current := if id in data then data[id] else map[];
      data := data[id := current[generation := value]];
      entries := Put(entries, id, generation, value);
    }

    method RemoveAccount(id: Id)
      requires Valid()
      modifies this
      ensures Valid() && entries == Without(old(entries), id)
      ensures forall i, g: nat :: Read(data, i, g) == if i == id then None else Read(old(data), i, g)
    {
      DeletionIsWithout(data, entries, id);
      hide Represents;
      data := data - {id};
      entries := Without(entries, id);
    }

    /** Deletes in place, account by account and generation by generation. */
    method Prune(refs: map<Id, nat>)
      requires Valid()
      modifies this
      ensures Valid() && entries == Pruned(old(entries), refs)
      ensures forall i, g: nat ::
                Read(data, i, g) == if i in refs && refs[i] == g then Read(old(data), i, g) else None
    {
      hide Represents;
      var accounts := data.Keys;
      while accounts != {}
        modifies `data
        invariant accounts <= data.Keys <= old(data.Keys)
        invariant forall id | id in accounts :: data[id] == old(data)[id]
        invariant forall id | id !in accounts :: Kept(old(data), refs, data, id)
        decreases accounts
      {
        var id :| id in accounts;
        if id !in refs {
          data := data - {id};
        } else {
          var kept := KeepGeneration(data[id], refs[id]);
          data := data[id := kept];
        }
        accounts := accounts - {id};
      }
      KeepingIsPruning(old(data), entries, refs, data);
      forall i, g: nat
        ensures Read(data, i, g) == if i in refs && refs[i] == g then Read(old(data), i, g) else None
      {
        assert Kept(old(data), refs, data, i);
      }
      entries := Pruned(entries, refs);
    }

    method KeepGeneration(generations: map<nat, Secret>, keep: nat) returns (r: map<nat, Secret>)
      ensures r.Keys == generations.Keys * {keep}
      ensures forall g | g in r :: r[g] == generations[g]
    {
      r := generations;
      var keys := generations.Keys;
      while keys != {}
        invariant keys <= r.Keys <= generations.Keys
        invariant forall g | g in r :: r[g] == generations[g]
        invariant forall g | g in generations && g !in keys :: g in r <==> g == keep
        decreases keys
      {
        var g :| g in keys;
        if g != keep { r := r - {g}; }
        keys := keys - {g};
      }
    }
  }

  datatype Crash = Finished | Died {
    predicate IsFailure() { Died? }
    function PropagateFailure(): Crash requires Died? { this }
  }

  /** How many stages an earlier crash has left. */
  ghost function Stale(preparing: Option<Option<Document>>, staged: Option<Document>): nat {
    (if preparing.Some? then 1 else 0) + if staged.Some? then 1 else 0
  }

  /** The stages and the live file of the credential document; every change of a name is one
      step, before which the process may die. */
  class FileCredentialStore {
    var preparing: Option<Option<Document>> // `.tmp.prepare`: absent, incomplete, or complete
    var staged: Option<Document>            // `.tmp`
    var live: Document
    var crashAt: Option<nat>
    ghost var entries: Credentials

    ghost predicate Valid()
      reads `live, `entries
    {
      Represents(live, entries)
    }

    constructor (live: Document, ghost entries: Credentials, crashAt: Option<nat>)
      requires Represents(live, entries)
      ensures Valid() && this.entries == entries && this.crashAt == crashAt
    {
      this.live, this.entries, this.crashAt, staged, preparing := live, entries, crashAt, None, None;
    }

    /** The next fault comes after the given number of file operations. */
    method Arm(after: Option<nat>)
      modifies `crashAt
      ensures crashAt == after
    {
      crashAt := after;
    }

    method Tick() returns (r: Crash)
      modifies `crashAt
      ensures r == (if old(crashAt) == Some(0) then Died else Finished) && crashAt == Ticked(old(crashAt))
    {
      match crashAt
      case None => r := Finished;
      case Some(k) =>
        if k == 0 {
          r := Died;
        } else {
          crashAt := Some(k - 1);
          r := Finished;
        }
    }

    /** Replaces the document: the live file is the old one or the new one at every instant, and
        a stage that an earlier crash left never reaches it. */
    method UpdateDocument(next: Document, ghost result: Credentials) returns (r: Crash)
      requires Valid() && Represents(next, result)
      modifies this
      ensures Valid()
      ensures (live == old(live) && entries == old(entries)) || (live == next && entries == result)
      ensures r.Finished? ==> live == next && entries == result && staged.None? && preparing.None?
      ensures var stale := Stale(old(preparing), old(staged));
              (r.Died? <==> old(crashAt).Some? && old(crashAt).value < stale + 4)
              && (r.Died? ==>
                    var done := old(crashAt).value - stale; // of the four writes
                    live == old(live) && entries == old(entries)
                    && preparing == (if old(crashAt) == Some(0) && stale > 0 then old(preparing)
                                     else if done == 1 then Some(None)
                                     else if done == 2 then Some(Some(next)) else None)
                    && staged == if done < 0 then old(staged) else if done == 3 then Some(next) else None)
      ensures old(crashAt).None? ==> r.Finished? && crashAt.None?
    {
      hide Represents;
      :- CleanupOrphanedStages();
      :- Tick();
      preparing := Some(None);
      :- Tick();
      preparing := Some(Some(next));
      :- Tick();
      preparing, staged := None, preparing.value;
      :- Tick();
      live, staged := staged.value, None;
      entries := result;
      r := Finished;
    }

    method CleanupOrphanedStages() returns (r: Crash)
      modifies `preparing, `staged, `crashAt
      ensures r.Finished? ==> preparing.None? && staged.None?
      ensures var stale := Stale(old(preparing), old(staged));
              (r.Died? <==> old(crashAt).Some? && old(crashAt).value < stale)
              && (r.Finished? && old(crashAt).Some? ==> crashAt == Some(old(crashAt).value - stale))
      ensures r.Died? ==> staged == old(staged) && preparing == if old(crashAt) == Some(0) then old(preparing) else None
      ensures old(crashAt).None? ==> r.Finished? && crashAt.None?
    {
      if preparing.Some? {
        :- Tick();
        preparing := None;
      }
      if staged.Some? {
        :- Tick();
        staged := None;
      }
      r := Finished;
    }

    method PutGeneration(id: Id, generation: nat, value: Secret) returns (r: Crash)
      requires Valid()
      modifies this
      ensures Valid()
      ensures entries == old(entries) || entries == Put(old(entries), id, generation, value)
      ensures r.Finished? ==> entries == Put(old(entries), id, generation, value) && staged.None? && preparing.None?
      ensures r.Finished? ==> forall i, g: nat ::
                Read(live, i, g) == if (i, g) == (id, generation) then Some(value) else Read(old(live), i, g)
      ensures old(crashAt).None? ==> r.Finished? && crashAt.None?
    {
      InsertionIsPut(live, entries, id, generation, value);
      hide Represents;
      var account := (if id in live then live[id] else map[])[generation := value];
      r := UpdateDocument(live[id := account], Put(entries, id, generation, value));
    }

    method RemoveAccount(id: Id) returns (r: Crash)
      requires Valid()
      modifies this
      ensures Valid()
      ensures entries == old(entries) || entries == Without(old(entries), id)
      ensures r.Finished? ==> entries == Without(old(entries), id) && staged.None? && preparing.None?
      ensures r.Finished? ==> forall i, g: nat :: Read(live, i, g) == if i == id then None else Read(old(live), i, g)
      ensures old(crashAt).None? ==> r.Finished? && crashAt.None?
    {
      DeletionIsWithout(live, entries, id);
      hide Represents;
      r := UpdateDocument(live - {id}, Without(entries, id));
    }

    /** Builds the pruned document from the references. */
    method Prune(refs: map<Id, nat>) returns (r: Crash)
      requires Valid()
      modifies this
      ensures Valid()
      ensures entries == old(entries) || entries == Pruned(old(entries), refs)
      ensures r.Finished? ==> entries == Pruned(old(entries), refs) && staged.None? && preparing.None?
      ensures r.Finished? ==> forall i, g: nat ::
                Read(live, i, g) == if i in refs && refs[i] == g then Read(old(live), i, g) else None
      ensures old(crashAt).None? ==> r.Finished? && crashAt.None?
    {
      hide Represents;
      var next: Document := map[];
      var ids := refs.Keys;
      while ids != {}
        modifies {}
        invariant ids <= refs.Keys && next.Keys !! ids
        invariant next.Keys <= refs.Keys
        invariant forall id | id !in ids :: Kept(live, refs, next, id)
        decreases ids
      {
        var id :| id in ids;
        match Read(live, id, refs[id]) {
          case Some(value) => next := next[id := map[refs[id] := value]];
          case None =>
        }
        ids := ids - {id};
      }
      KeepingIsPruning(live, entries, refs, next);
      forall i, g: nat
        ensures Read(next, i, g) == if i in refs && refs[i] == g then Read(live, i, g) else None
      {
        assert Kept(live, refs, next, i);
      }
      r := UpdateDocument(next, Pruned(entries, refs));
    }
  }

  datatype Operation =
    | PutOne(id: Id, generation: nat, value: Secret)
    | RemoveAll(id: Id)
    | Sweep(refs: map<Id, nat>)

  /** What is stored after some operations, all generations in one map. */
  ghost function After(entries: Credentials, operations: seq<Operation>): Credentials {
    if operations == [] then entries
    else
      var n := |operations| - 1;
      var was := After(entries, operations[..n]);
      match operations[n]
      case PutOne(id, generation, value) => was[(id, generation) := value]
      case RemoveAll(id) => map k | k in was && k.0 != id :: was[k]
      case Sweep(refs) => map k | k in was && Referenced(refs, k) :: was[k]
  }

  /** The two stores cannot be told apart: after the same operations, whatever they were, both
      answer every read alike, although one prunes in place and the other rebuilds. */
  method Alike(memory: MemoryCredentialStore, file: FileCredentialStore, operations: seq<Operation>)
    requires memory.Valid() && file.Valid() && memory.entries == file.entries && file.crashAt.None?
    modifies memory, file
    ensures memory.Valid() && file.Valid()
    ensures memory.entries == file.entries == After(old(memory.entries), operations)
    ensures forall id, generation: nat :: Read(memory.data, id, generation) == Read(file.live, id, generation)
  {
    for i := 0 to |operations|
      invariant memory.Valid() && file.Valid() && file.crashAt.None?
      invariant memory.entries == file.entries == After(old(memory.entries), operations[..i])
    {
      hide Represents;
      assert operations[..i + 1][..i] == operations[..i];
      match operations[i]
      case PutOne(id, generation, value) =>
        memory.PutGeneration(id, generation, value);
        var _ := file.PutGeneration(id, generation, value);
      case RemoveAll(id) =>
        memory.RemoveAccount(id);
        var _ := file.RemoveAccount(id);
      case Sweep(refs) =>
        memory.Prune(refs);
        var _ := file.Prune(refs);
    }
    assert operations[..|operations|] == operations;
    forall id, generation: nat ensures Read(memory.data, id, generation) == Read(file.live, id, generation) {
      assert Read(memory.data, id, generation) == Lookup(memory.entries, id, generation);
    }
  }
}
