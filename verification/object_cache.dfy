/** Object states keyed by (config hash, file index), stored under formatted string keys. */
module ObjectCache {
  import opened Text
  import opened FlushProtocol

  datatype ObjectState = DirectoryNonExistent | Planned | Creating | Created | Failed | Deleted

  datatype ObjectEntry = ObjectEntry(
    path: string, size: nat, state: ObjectState, endpointIdx: nat,
    createdAt: Option<nat>, checksum: Option<nat>)

  function NewPlanned(path: string, size: nat, endpointIdx: nat): ObjectEntry {
    ObjectEntry(path, size, Planned, endpointIdx, None, None)
  }

  // === Keys ===

  function Prefix(hash: string): string {
    hash + ":"
  }

  /** `format!("{}:{:08}", config_hash, file_idx)` */
  function Key(hash: string, idx: usize): string {
    Prefix(hash) + Padded(idx, 8)
  }

  /** For colon-free hashes a scan by prefix meets exactly the keys of its own hash, and the rest of
      the key parses back to the file index, however many digits it has. */
  lemma KeyBelongsToOneHash(hash: string, other: string, idx: usize)
    requires ':' !in hash && ':' !in other
    ensures StartsWith(Key(other, idx), Prefix(hash)) <==> hash == other
    ensures StripPrefix(Key(other, idx), Prefix(other)) == Some(Padded(idx, 8))
    ensures ParseUsize(Padded(idx, 8)) == Some(idx)
  {
    hide Padded;
    PaddedParse(idx, 8);
    var key, digits := Key(other, idx), Padded(idx, 8);
    assert key == other + [':'] + digits;
    assert key[..|Prefix(other)|] == Prefix(other) && key[|Prefix(other)|..] == digits;
    if StartsWith(key, Prefix(hash)) {
      var rest := key[|Prefix(hash)|..];
      assert key == hash + [':'] + rest;
      JoinInjective(hash, rest, other, digits, ':');
    }
  }

  lemma KeyInjective(p: Slot, q: Slot)
    requires ':' !in p.0 && ':' !in q.0
    requires Key(p.0, p.1) == Key(q.0, q.1)
    ensures p == q
  {
    var key := Key(p.0, p.1);
    assert key[..|Prefix(p.0)|] == Prefix(p.0);
    KeyBelongsToOneHash(p.0, q.0, q.1);
    KeyBelongsToOneHash(p.0, p.0, p.1);
  }

  /** A hash with a colon in it would make one scan read another hash's objects. */
  lemma ColonHashesCollide(idx: usize)
    ensures StartsWith(Key("a:b", idx), Prefix("a")) && "a:b" != "a"
  {
    assert Key("a:b", idx)[..2] == "a:";
  }

  // === The abstract table ===

  type Slot = (string, usize)

  type Table = map<Slot, ObjectEntry>

  datatype Op =
    | SetPlanned(hash: string, idx: usize, path: string, size: nat)
    | SetCreating(hash: string, idx: usize)
    | SetCreated(hash: string, idx: usize, at: nat, checksum: Option<nat>)
    | SetFailed(hash: string, idx: usize)
    | SetDeleted(hash: string, idx: usize)
    | UpsertCreated(hash: string, idx: usize, path: string, size: nat, at: nat, checksum: Option<nat>)

  /** What an operation means for the table of endpoint `endpointIdx`. */
  function ApplyOp(t: Table, endpointIdx: nat, op: Op): Table {
    var slot := (op.hash, op.idx);
    match op
    case SetPlanned(_, _, path, size) => t[slot := NewPlanned(path, size, endpointIdx)]
    case SetCreating(_, _) => if slot in t then t[slot := t[slot].(state := Creating)] else t
    case SetFailed(_, _) => if slot in t then t[slot := t[slot].(state := Failed)] else t
    case SetDeleted(_, _) => if slot in t then t[slot := t[slot].(state := Deleted)] else t
    case SetCreated(_, _, at, sum) =>
      if slot in t then t[slot := t[slot].(state := Created, createdAt := Some(at), checksum := sum)] else t
    case UpsertCreated(_, _, path, size, at, sum) =>
      var base := if slot in t then t[slot] else NewPlanned(path, size, endpointIdx);
      t[slot := base.(state := Created, createdAt := Some(at), checksum := sum)]
  }

  /** Only this slot may differ. */
  ghost predicate OnlyAt(t: Table, after: Table, slot: Slot) {
    forall p :: p != slot ==> (p in after <==> p in t) && (p in t ==> after[p] == t[p])
  }

  /** The slot holds this entry afterwards (or is missing), and nothing else changed. */
  ghost predicate Becomes(t: Table, after: Table, slot: Slot, entry: Option<ObjectEntry>) {
    && OnlyAt(t, after, slot)
    && (slot in after <==> entry.Some?)
    && (entry.Some? ==> after[slot] == entry.value)
  }

  /** The entry with another state, and everything else kept. */
  function Turned(t: Table, slot: Slot, state: ObjectState): Option<ObjectEntry> {
    if slot in t then Some(ObjectEntry(t[slot].path, t[slot].size, state, t[slot].endpointIdx, t[slot].createdAt, t[slot].checksum)) else None
  }

  /** What each operation leaves at its slot, field by field. */
  lemma OpEffects(t: Table, endpointIdx: nat, op: Op)
    ensures var after, slot := ApplyOp(t, endpointIdx, op), (op.hash, op.idx);
            match op
            case SetPlanned(_, _, path, size) => Becomes(t, after, slot, Some(ObjectEntry(path, size, Planned, endpointIdx, None, None)))
            case SetCreating(_, _) => Becomes(t, after, slot, Turned(t, slot, Creating))
            case SetFailed(_, _) => Becomes(t, after, slot, Turned(t, slot, Failed))
            case SetDeleted(_, _) => Becomes(t, after, slot, Turned(t, slot, Deleted))
            case SetCreated(_, _, at, sum) =>
              Becomes(t, after, slot,
                      if slot in t then Some(ObjectEntry(t[slot].path, t[slot].size, Created, t[slot].endpointIdx, Some(at), sum)) else None)
            case UpsertCreated(_, _, path, size, at, sum) =>
              Becomes(t, after, slot,
                      Some(if slot in t then ObjectEntry(t[slot].path, t[slot].size, Created, t[slot].endpointIdx, Some(at), sum)
                           else ObjectEntry(path, size, Created, endpointIdx, Some(at), sum)))
  {}

  ghost predicate WellTimed(t: Table) {
    forall p :: p in t ==>
      && (t[p].state == Created ==> t[p].createdAt.Some?)
      && (t[p].state == Planned ==> t[p].createdAt.None? && t[p].checksum.None?)
  }

  function RunOps(t: Table, endpointIdx: nat, ops: seq<Op>): Table
    decreases |ops|
  {
    if ops == [] then t else RunOps(ApplyOp(t, endpointIdx, ops[0]), endpointIdx, ops[1..])
  }

  /** After any sequence of calls, created objects carry a timestamp and planned ones carry neither
      timestamp nor checksum. */
  lemma {:induction false} RunStaysWellTimed(t: Table, endpointIdx: nat, ops: seq<Op>)
    requires WellTimed(t)
    ensures WellTimed(RunOps(t, endpointIdx, ops))
    decreases |ops|
  {
    if ops != [] {
      RunStaysWellTimed(ApplyOp(t, endpointIdx, ops[0]), endpointIdx, ops[1..]);
    }
  }

  ghost function Slots(t: Table, hash: string, state: ObjectState): set<Slot> {
    set p | p in t && p.0 == hash && t[p].state == state
  }

  ghost function TotalSize(t: Table, slots: set<Slot>): nat
    requires slots <= t.Keys
  {
    if slots == {} then 0
    else
      var p :| p in slots;
      t[p].size + TotalSize(t, slots - {p})
  }

  lemma {:induction false} TotalSizeAdd(t: Table, slots: set<Slot>, p: Slot)
    requires slots <= t.Keys && p in slots
    ensures TotalSize(t, slots) == t[p].size + TotalSize(t, slots - {p})
    decreases |slots|
  {
    var q :| q in slots && TotalSize(t, slots) == t[q].size + TotalSize(t, slots - {q});
    if q != p {
      TotalSizeAdd(t, slots - {q}, p);
      TotalSizeAdd(t, slots - {p}, q);
      assert slots - {q} - {p} == slots - {p} - {q};
    }
  }

  // === The string-keyed store refines the table ===

  ghost predicate Represents(objects: map<string, ObjectEntry>, t: Table) {
    && (forall p :: p in t ==> ':' !in p.0 && Key(p.0, p.1) in objects && objects[Key(p.0, p.1)] == t[p])
    && (forall k :: k in objects ==> exists p :: p in t && Key(p.0, p.1) == k)
  }

  lemma PutRepresents(objects: map<string, ObjectEntry>, t: Table, slot: Slot, e: ObjectEntry)
    requires Represents(objects, t) && ':' !in slot.0
    ensures Represents(objects[Key(slot.0, slot.1) := e], t[slot := e])
  {
    var objects', t' := objects[Key(slot.0, slot.1) := e], t[slot := e];
    forall p | p in t'
      ensures ':' !in p.0 && Key(p.0, p.1) in objects' && objects'[Key(p.0, p.1)] == t'[p]
    {
      if Key(p.0, p.1) == Key(slot.0, slot.1) {
        KeyInjective(p, slot);
      }
    }
    forall k | k in objects'
      ensures exists p :: p in t' && Key(p.0, p.1) == k
    {
      if k == Key(slot.0, slot.1) {
        assert slot in t';
      } else {
        var p :| p in t && Key(p.0, p.1) == k;
        assert p in t';
      }
    }
  }

  lemma LookupAgrees(objects: map<string, ObjectEntry>, t: Table, slot: Slot)
    requires Represents(objects, t) && ':' !in slot.0
    ensures Key(slot.0, slot.1) in objects <==> slot in t
  {
    if Key(slot.0, slot.1) in objects {
      var p :| p in t && Key(p.0, p.1) == Key(slot.0, slot.1);
      KeyInjective(p, slot);
    }
  }

  /** What a scan has met of one hash and state when the keys in `rest` are still to come. */
  ghost function Seen(t: Table, hash: string, state: ObjectState, rest: set<string>): set<Slot> {
    set p | p in t && p.0 == hash && t[p].state == state && Key(p.0, p.1) !in rest
  }

  /** The one slot a key stands for, and what a scan for `hash` makes of the key. */
  lemma SlotOfKey(objects: map<string, ObjectEntry>, t: Table, hash: string, k: string) returns (slot: Slot)
    requires Represents(objects, t) && ':' !in hash && k in objects
    ensures slot in t && Key(slot.0, slot.1) == k && t[slot] == objects[k]
    ensures StartsWith(k, Prefix(hash)) <==> slot.0 == hash
    ensures slot.0 == hash ==> StripPrefix(k, Prefix(hash)) == Some(Padded(slot.1, 8)) && ParseUsize(Padded(slot.1, 8)) == Some(slot.1)
    ensures OnlySlot(t, slot)
  {
    slot :| slot in t && Key(slot.0, slot.1) == k;
    KeyBelongsToOneHash(hash, slot.0, slot.1);
    forall p | p in t && Key(p.0, p.1) == k
      ensures p == slot
    {
      KeyInjective(p, slot);
    }
  }

  ghost predicate OnlySlot(t: Table, slot: Slot) {
    slot in t && forall p :: p in t && Key(p.0, p.1) == Key(slot.0, slot.1) ==> p == slot
  }

  lemma SeenGrows(t: Table, hash: string, state: ObjectState, rest: set<string>, slot: Slot)
    requires OnlySlot(t, slot) && Key(slot.0, slot.1) in rest
    ensures slot !in Seen(t, hash, state, rest)
    ensures var after := Seen(t, hash, state, rest - {Key(slot.0, slot.1)});
            after == Seen(t, hash, state, rest) + if slot.0 == hash && t[slot].state == state then {slot} else {}
  {
    var k := Key(slot.0, slot.1);
    forall p | p in t && p != slot
      ensures Key(p.0, p.1) !in rest - {k} <==> Key(p.0, p.1) !in rest
    {}
  }

  /** Count and byte total of one state, absent when nothing was seen. */
  ghost predicate Tally(t: Table, seen: set<Slot>, s: ObjectState, counts: map<ObjectState, nat>, bytes: map<ObjectState, nat>)
    requires seen <= t.Keys
  {
    && (s in counts <==> seen != {})
    && (s in bytes <==> seen != {})
    && (s in counts && s in bytes ==> counts[s] == |seen| && bytes[s] == TotalSize(t, seen))
  }

  ghost predicate Tallies(t: Table, hash: string, rest: set<string>, counts: map<ObjectState, nat>, bytes: map<ObjectState, nat>) {
    forall s :: Tally(t, Seen(t, hash, s, rest), s, counts, bytes)
  }

  /** What a finished scan reports. */
  ghost predicate TalliesAll(t: Table, hash: string, counts: map<ObjectState, nat>, bytes: map<ObjectState, nat>) {
    forall s :: Tally(t, Slots(t, hash, s), s, counts, bytes)
  }

  function Bump(m: map<ObjectState, nat>, s: ObjectState, amount: nat): map<ObjectState, nat> {
    m[s := (if s in m then m[s] else 0) + amount]
  }

  lemma BumpTally(t: Table, seen: set<Slot>, slot: Slot, counts: map<ObjectState, nat>, bytes: map<ObjectState, nat>)
    requires seen <= t.Keys && slot in t && slot !in seen
    requires Tally(t, seen, t[slot].state, counts, bytes)
    ensures var s := t[slot].state;
            Tally(t, seen + {slot}, s, Bump(counts, s, 1), Bump(bytes, s, t[slot].size))
  {
    TotalSizeAdd(t, seen + {slot}, slot);
    assert seen + {slot} - {slot} == seen;
    assert TotalSize(t, {}) == 0;
  }

  /** One key of a scan, counted if it belongs to the hash. */
  lemma TalliesStep(objects: map<string, ObjectEntry>, t: Table, hash: string, rest: set<string>, k: string,
                    counts: map<ObjectState, nat>, bytes: map<ObjectState, nat>)
    requires Represents(objects, t) && ':' !in hash && k in rest && rest <= objects.Keys
    requires Tallies(t, hash, rest, counts, bytes)
    ensures var s := objects[k].state;
            if StartsWith(k, Prefix(hash))
            then Tallies(t, hash, rest - {k}, Bump(counts, s, 1), Bump(bytes, s, objects[k].size))
            else Tallies(t, hash, rest - {k}, counts, bytes)
  {
    hide Represents, OnlySlot, Key, Padded, StartsWith;
    var slot := SlotOfKey(objects, t, hash, k);
    var counts', bytes' := counts, bytes;
    if slot.0 == hash {
      counts', bytes' := Bump(counts, t[slot].state, 1), Bump(bytes, t[slot].state, t[slot].size);
    }
    forall s
      ensures Tally(t, Seen(t, hash, s, rest - {k}), s, counts', bytes')
    {
      var seen := Seen(t, hash, s, rest);
      assert Tally(t, seen, s, counts, bytes);
      SeenGrows(t, hash, s, rest, slot);
      if slot.0 == hash && t[slot].state == s {
        BumpTally(t, seen, slot, counts, bytes);
      } else {
        assert Seen(t, hash, s, rest - {k}) == seen;
      }
    }
  }

  lemma TalliesStart(objects: map<string, ObjectEntry>, t: Table, hash: string)
    requires Represents(objects, t)
    ensures Tallies(t, hash, objects.Keys, map[], map[])
  {
    assert forall s :: Seen(t, hash, s, objects.Keys) == {};
  }

  lemma SeenAll(t: Table, hash: string)
    ensures forall s :: Seen(t, hash, s, {}) == Slots(t, hash, s)
  {}

  /** Entry lists of one hash and state: no slot twice, none left out. */
  ghost predicate Lists(t: Table, hash: string, state: ObjectState, rest: set<string>, results: seq<(usize, ObjectEntry)>) {
    && (forall r :: r in results <==> (hash, r.0) in Seen(t, hash, state, rest) && t[(hash, r.0)] == r.1)
    && (forall i, j :: 0 <= i < j < |results| ==> results[i].0 != results[j].0)
  }

  lemma ListsStep(objects: map<string, ObjectEntry>, t: Table, hash: string, state: ObjectState, rest: set<string>, k: string,
                  results: seq<(usize, ObjectEntry)>)
    requires Represents(objects, t) && ':' !in hash && k in rest && rest <= objects.Keys
    requires Lists(t, hash, state, rest, results)
    ensures if StartsWith(k, Prefix(hash)) && objects[k].state == state
            then && ParseUsize(StripPrefix(k, Prefix(hash)).value).Some?
                 && Lists(t, hash, state, rest - {k}, results + [(ParseUsize(StripPrefix(k, Prefix(hash)).value).value, objects[k])])
            else Lists(t, hash, state, rest - {k}, results)
  {
    hide Represents, OnlySlot, Key, Padded, ParseUsize, StripPrefix, StartsWith;
    var slot := SlotOfKey(objects, t, hash, k);
    SeenGrows(t, hash, state, rest, slot);
    if slot.0 == hash && t[slot].state == state {
      var r := (slot.1, t[slot]);
      var results' := results + [r];
      assert results'[|results|] == r;
      assert forall x :: x in results' <==> x in results || x == r;
    } else {
      assert Seen(t, hash, state, rest - {k}) == Seen(t, hash, state, rest);
    }
  }

  lemma ApplyKeepsWellTimed(t: Table, endpointIdx: nat, op: Op)
    requires WellTimed(t)
    ensures WellTimed(ApplyOp(t, endpointIdx, op))
  {}

  function PlanOps(hash: string, batch: seq<(usize, string, nat)>): seq<Op> {
    seq(|batch|, i requires 0 <= i < |batch| => SetPlanned(hash, batch[i].0, batch[i].1, batch[i].2))
  }

  lemma PlanOpsSnoc(hash: string, batch: seq<(usize, string, nat)>, i: nat)
    requires i < |batch|
    ensures PlanOps(hash, batch[..i + 1]) == PlanOps(hash, batch[..i]) + [SetPlanned(hash, batch[i].0, batch[i].1, batch[i].2)]
  {}

  lemma {:induction false} RunOpsSnoc(t: Table, endpointIdx: nat, ops: seq<Op>, op: Op)
    ensures RunOps(t, endpointIdx, ops + [op]) == ApplyOp(RunOps(t, endpointIdx, ops), endpointIdx, op)
    decreases |ops|
  {
    if ops == [] {
      assert RunOps(ApplyOp(t, endpointIdx, op), endpointIdx, []) == ApplyOp(t, endpointIdx, op);
      assert ([] + [op])[1..] == [];
    } else {
      RunOpsSnoc(ApplyOp(t, endpointIdx, ops[0]), endpointIdx, ops[1..], op);
      assert (ops + [op])[1..] == ops[1..] + [op];
    }
  }

  predicate NotIn(hash: string, batch: seq<(usize, string, nat)>, slot: Slot) {
    forall i :: 0 <= i < |batch| ==> slot != (hash, batch[i].0)
  }

  /** A batch of different indices leaves each of them planned with its own path and size, and nothing
      else changed. */
  lemma {:induction false} BatchIsPlanned(t: Table, endpointIdx: nat, hash: string, batch: seq<(usize, string, nat)>, slot: Slot)
    requires forall i, j :: 0 <= i < j < |batch| ==> batch[i].0 != batch[j].0
    ensures var after := RunOps(t, endpointIdx, PlanOps(hash, batch));
            && (forall i :: 0 <= i < |batch| ==>
                 (hash, batch[i].0) in after && after[(hash, batch[i].0)] == ObjectEntry(batch[i].1, batch[i].2, Planned, endpointIdx, None, None))
            && (NotIn(hash, batch, slot) ==> (slot in after <==> slot in t) && (slot in t ==> after[slot] == t[slot]))
    decreases |batch|
  {
    if batch == [] {
      assert PlanOps(hash, batch) == [];
    } else {
      var n := |batch| - 1;
      var (idx, path, size) := batch[n];
      PlanOpsSnoc(hash, batch, n);
      assert batch[..n + 1] == batch;
      RunOpsSnoc(t, endpointIdx, PlanOps(hash, batch[..n]), SetPlanned(hash, idx, path, size));
      BatchIsPlanned(t, endpointIdx, hash, batch[..n], slot);
      OpEffects(RunOps(t, endpointIdx, PlanOps(hash, batch[..n])), endpointIdx, SetPlanned(hash, idx, path, size));
      hide ApplyOp, RunOps, PlanOps;
    }
  }

  /** Does a `maybe_flush` with this many writes pending persist? */
  predicate FlushesNow(policy: Policy, pending: nat) {
    match policy
    case Immediate => true
    case BatchSize(t) => pending + 1 >= t
    case AsyncInterval(_) => false
  }

  /** What one `maybe_flush` leaves durable and pending. */
  predicate AfterWrite(policy: Policy, pending: nat, durable: map<string, ObjectEntry>, objects: map<string, ObjectEntry>,
                       durable': map<string, ObjectEntry>, pending': nat) {
    && durable' == (if FlushesNow(policy, pending) then objects else durable)
    && pending' == (if policy.Immediate? then pending else if FlushesNow(policy, pending) then 0 else pending + 1)
  }

  /** A write with no other thread about is one run of the concurrent protocol. */
  lemma WriteIsProtocolRun(policy: Policy, s: State) returns (steps: seq<Step>)
    requires PhaseOf(s, 0) == Idle
    ensures CanRun(policy, s, steps)
    ensures var end := Run(policy, s, steps);
            && (forall th :: PhaseOf(end, th) == PhaseOf(s, th))
            && end.recorded == s.recorded + 1
            && end.durable == (if FlushesNow(policy, s.counter) then end.recorded else s.durable)
            && end.counter == if policy.Immediate? then s.counter else if FlushesNow(policy, s.counter) then 0 else s.counter + 1
    ensures s.durable <= s.recorded ==>
              forall durable, objects, durable', pending' :: AfterWrite(policy, s.counter, durable, objects, durable', pending') ==>
                && pending' == Run(policy, s, steps).counter
                && durable' == if Run(policy, s, steps).durable == Run(policy, s, steps).recorded then objects else durable
  {
    var s1 := FlushProtocol.Apply(policy, s, Insert(0));
    var s2 := FlushProtocol.Apply(policy, s1, Decide(0));
    var tail: seq<Step> := [];
    var end := s2;
    if policy.BatchSize? && FlushesNow(policy, s.counter) {
      var s3 := FlushProtocol.Apply(policy, s2, StoreZero(0));
      end := FlushProtocol.Apply(policy, s3, Persist(0));
      tail := [StoreZero(0), Persist(0)];
      assert tail[1..] == [Persist(0)];
      assert CanRun(policy, s3, [Persist(0)]) && Run(policy, s3, [Persist(0)]) == end;
    } else if policy.Immediate? {
      end := FlushProtocol.Apply(policy, s2, Persist(0));
      tail := [Persist(0)];
    }
    assert CanRun(policy, s2, tail) && Run(policy, s2, tail) == end;
    var rest := [Decide(0)] + tail;
    assert rest[1..] == tail;
    assert CanRun(policy, s1, rest) && Run(policy, s1, rest) == end;
    steps := [Insert(0)] + rest;
    assert steps[1..] == rest;
    forall th
      ensures PhaseOf(end, th) == PhaseOf(s, th)
    {
      assert th != 0 ==> PhaseOf(end, th) == PhaseOf(s, th);
    }
  }

  class EndpointCache {
    const endpointIndex: nat
    var objects: map<string, ObjectEntry>  // the keyspace, as readers see it
    var durable: map<string, ObjectEntry>  // what a crash leaves
    var pendingWrites: nat
    var policy: Policy
    ghost var table: Table

    ghost predicate Valid()
      reads this`objects, this`table
    {
      Represents(objects, table) && WellTimed(table)
    }

    constructor (index: nat)
      ensures Valid() && endpointIndex == index && table == map[] && durable == map[]
      ensures policy == AsyncInterval(30) && pendingWrites == 0
    {
      endpointIndex := index;
      objects, durable, table := map[], map[], map[];
      pendingWrites, policy := 0, AsyncInterval(30);
    }

    method MaybeFlush()
      modifies this`durable, this`pendingWrites
      ensures AfterWrite(policy, old(pendingWrites), old(durable), objects, durable, pendingWrites)
    {
      match policy {
        case Immediate => durable := objects;
        case BatchSize(threshold) =>
          pendingWrites := pendingWrites + 1;
          if pendingWrites >= threshold {
            pendingWrites := 0;
            durable := objects;
          }
        case AsyncInterval(_) => pendingWrites := pendingWrites + 1;
      }
    }

    method ForceFlush()
      modifies this`durable, this`pendingWrites
      ensures durable == objects && pendingWrites == 0
    {
      pendingWrites := 0;
      durable := objects;
    }

    method SetFlushPolicy(p: Policy)
      modifies this`policy, this`pendingWrites
      ensures policy == p && pendingWrites == 0
    {
      policy := p;
      pendingWrites := 0;
    }

    method Insert(hash: string, idx: usize, entry: ObjectEntry)
      requires Valid() && ':' !in hash && WellTimed(table[(hash, idx) := entry])
      modifies this`objects, this`table
      ensures Valid() && table == old(table)[(hash, idx) := entry]
    {
      PutRepresents(objects, table, (hash, idx), entry);
      objects := objects[Key(hash, idx) := entry];
      table := table[(hash, idx) := entry];
    }

    /** Insert the entry an operation asks for and run `maybe_flush`; every single write ends this way. */
    method Put(ghost op: Op, entry: ObjectEntry, hash: string, idx: usize)
      requires Valid() && ':' !in hash && (op.hash, op.idx) == (hash, idx)
      requires ApplyOp(table, endpointIndex, op) == table[(hash, idx) := entry]
      modifies this`objects, this`table, this`durable, this`pendingWrites
      ensures Valid() && table == ApplyOp(old(table), endpointIndex, op)
      ensures AfterWrite(policy, old(pendingWrites), old(durable), objects, durable, pendingWrites)
    {
      ApplyKeepsWellTimed(table, endpointIndex, op);
      Insert(hash, idx, entry);
      MaybeFlush();
    }

    method GetObject(hash: string, idx: usize) returns (r: Option<ObjectEntry>)
      requires Valid() && ':' !in hash
      ensures r == if (hash, idx) in table then Some(table[(hash, idx)]) else None
    {
      LookupAgrees(objects, table, (hash, idx));
      var key := Key(hash, idx);
      r := if key in objects then Some(objects[key]) else None;
    }

    method PlanObject(hash: string, idx: usize, path: string, size: nat)
      requires Valid() && ':' !in hash
      modifies this`objects, this`table, this`durable, this`pendingWrites
      ensures Valid() && table == ApplyOp(old(table), endpointIndex, SetPlanned(hash, idx, path, size))
      ensures AfterWrite(policy, old(pendingWrites), old(durable), objects, durable, pendingWrites)
      ensures Becomes(old(table), table, (hash, idx), Some(ObjectEntry(path, size, Planned, endpointIndex, None, None)))
    {
      OpEffects(table, endpointIndex, SetPlanned(hash, idx, path, size));
      Put(SetPlanned(hash, idx, path, size), NewPlanned(path, size, endpointIndex), hash, idx);
    }

    method MarkCreating(hash: string, idx: usize)
      requires Valid() && ':' !in hash
      modifies this`objects, this`table, this`durable, this`pendingWrites
      ensures Valid() && table == ApplyOp(old(table), endpointIndex, SetCreating(hash, idx))
      ensures AfterWrite(policy, old(pendingWrites), old(durable), objects, durable, pendingWrites)
      ensures Becomes(old(table), table, (hash, idx), Turned(old(table), (hash, idx), Creating))
    {
      OpEffects(table, endpointIndex, SetCreating(hash, idx));
      var entry := GetObject(hash, idx);
      if entry.Some? {
        Put(SetCreating(hash, idx), entry.value.(state := Creating), hash, idx);
      } else {
        MaybeFlush();
      }
    }

    method MarkCreated(hash: string, idx: usize, createdAt: Option<nat>, checksum: Option<nat>, now: nat)
      requires Valid() && ':' !in hash
      modifies this`objects, this`table, this`durable, this`pendingWrites
      ensures Valid()
      ensures var at := if createdAt.Some? then createdAt.value else now;
              table == ApplyOp(old(table), endpointIndex, SetCreated(hash, idx, at, checksum))
      ensures AfterWrite(policy, old(pendingWrites), old(durable), objects, durable, pendingWrites)
    {
      var entry := GetObject(hash, idx);
      if entry.Some? {
        var at := if createdAt.Some? then createdAt.value else now;
        var created := entry.value.(state := Created, createdAt := Some(at), checksum := checksum);
        Put(SetCreated(hash, idx, at, checksum), created, hash, idx);
      } else {
        MaybeFlush();
      }
    }

    method MarkFailed(hash: string, idx: usize)
      requires Valid() && ':' !in hash
      modifies this`objects, this`table, this`durable, this`pendingWrites
      ensures Valid() && table == ApplyOp(old(table), endpointIndex, SetFailed(hash, idx))
      ensures AfterWrite(policy, old(pendingWrites), old(durable), objects, durable, pendingWrites)
      ensures Becomes(old(table), table, (hash, idx), Turned(old(table), (hash, idx), Failed))
    {
      OpEffects(table, endpointIndex, SetFailed(hash, idx));
      var entry := GetObject(hash, idx);
      if entry.Some? {
        Put(SetFailed(hash, idx), entry.value.(state := Failed), hash, idx);
      } else {
        MaybeFlush();
      }
    }

    method MarkDeleted(hash: string, idx: usize)
      requires Valid() && ':' !in hash
      modifies this`objects, this`table, this`durable, this`pendingWrites
      ensures Valid() && table == ApplyOp(old(table), endpointIndex, SetDeleted(hash, idx))
      ensures AfterWrite(policy, old(pendingWrites), old(durable), objects, durable, pendingWrites)
      ensures Becomes(old(table), table, (hash, idx), Turned(old(table), (hash, idx), Deleted))
    {
      OpEffects(table, endpointIndex, SetDeleted(hash, idx));
      var entry := GetObject(hash, idx);
      if entry.Some? {
        Put(SetDeleted(hash, idx), entry.value.(state := Deleted), hash, idx);
      } else {
        MaybeFlush();
      }
    }

    method RecordCreated(hash: string, idx: usize, path: string, size: nat, createdAt: Option<nat>, checksum: Option<nat>, now: nat)
      requires Valid() && ':' !in hash
      modifies this`objects, this`table, this`durable, this`pendingWrites
      ensures Valid()
      ensures var at := if createdAt.Some? then createdAt.value else now;
              table == ApplyOp(old(table), endpointIndex, UpsertCreated(hash, idx, path, size, at, checksum))
      ensures AfterWrite(policy, old(pendingWrites), old(durable), objects, durable, pendingWrites)
    {
      var at := if createdAt.Some? then createdAt.value else now;
      var found := GetObject(hash, idx);
      var entry := if found.Some? then found.value else NewPlanned(path, size, endpointIndex);
      var created := entry.(state := Created, createdAt := Some(at), checksum := checksum);
      Put(UpsertCreated(hash, idx, path, size, at, checksum), created, hash, idx);
    }

    /** Plans a batch with a `maybe_flush` every 100 000 inserts, and is durable on return. */
    method PlanObjectsBatch(hash: string, batch: seq<(usize, string, nat)>)
      requires Valid() && ':' !in hash
      modifies this`objects, this`table, this`durable, this`pendingWrites
      ensures Valid() && table == RunOps(old(table), endpointIndex, PlanOps(hash, batch))
      ensures durable == objects && pendingWrites == 0
    {
      for i := 0 to |batch|
        invariant Valid() && table == RunOps(old(table), endpointIndex, PlanOps(hash, batch[..i]))
      {
        var (idx, path, size) := batch[i];
        PlanOpsSnoc(hash, batch, i);
        RunOpsSnoc(old(table), endpointIndex, PlanOps(hash, batch[..i]), SetPlanned(hash, idx, path, size));
        ApplyKeepsWellTimed(table, endpointIndex, SetPlanned(hash, idx, path, size));
        Insert(hash, idx, NewPlanned(path, size, endpointIndex));
        if (i + 1) % 100_000 == 0 {
          MaybeFlush();
        }
      }
      assert batch[..|batch|] == batch;
      ForceFlush();
    }

    /** The scan finds exactly the entries of the hash in the given state, each once. */
    method GetObjectsByState(hash: string, target: ObjectState) returns (results: seq<(usize, ObjectEntry)>)
      requires Valid() && ':' !in hash
      ensures forall r :: r in results <==>
                (hash, r.0) in Slots(table, hash, target) && table[(hash, r.0)] == r.1
      ensures forall i, j :: 0 <= i < j < |results| ==> results[i].0 != results[j].0
    {
      results := [];
      var rest := objects.Keys;
      assert Seen(table, hash, target, rest) == {};
      while rest != {}
        invariant rest <= objects.Keys
        invariant Lists(table, hash, target, rest, results)
        decreases rest
      {
        var key :| key in rest;
        ListsStep(objects, table, hash, target, rest, key, results);
        if StartsWith(key, Prefix(hash)) {
          var entry := objects[key];
          if entry.state == target {
            var idx := ParseUsize(StripPrefix(key, Prefix(hash)).value);
            if idx.Some? {
              results := results + [(idx.value, entry)];
            }
          }
        }
        rest := rest - {key};
      }
      SeenAll(table, hash);
    }

    /** The scan behind progress reports and the coverage test. */
    method CountAndBytesByState(hash: string) returns (counts: map<ObjectState, nat>, bytes: map<ObjectState, nat>)
      requires Valid() && ':' !in hash
      ensures TalliesAll(table, hash, counts, bytes)
    {
      counts, bytes := map[], map[];
      var rest := objects.Keys;
      TalliesStart(objects, table, hash);
      while rest != {}
        invariant rest <= objects.Keys
        invariant Tallies(table, hash, rest, counts, bytes)
        decreases rest
      {
        var key :| key in rest;
        TalliesStep(objects, table, hash, rest, key, counts, bytes);
        if StartsWith(key, Prefix(hash)) {
          var entry := objects[key];
          counts, bytes := Bump(counts, entry.state, 1), Bump(bytes, entry.state, entry.size);
        }
        rest := rest - {key};
      }
      SeenAll(table, hash);
    }

    method CountByState(hash: string) returns (counts: map<ObjectState, nat>)
      requires Valid() && ':' !in hash
      ensures forall s :: s in counts <==> Slots(table, hash, s) != {}
      ensures forall s :: s in counts ==> counts[s] == |Slots(table, hash, s)|
    {
      counts := map[];
      ghost var bytes := map[];
      var rest := objects.Keys;
      TalliesStart(objects, table, hash);
      while rest != {}
        invariant rest <= objects.Keys
        invariant Tallies(table, hash, rest, counts, bytes)
        decreases rest
      {
        var key :| key in rest;
        TalliesStep(objects, table, hash, rest, key, counts, bytes);
        if StartsWith(key, Prefix(hash)) {
          bytes := Bump(bytes, objects[key].state, objects[key].size);
          counts := Bump(counts, objects[key].state, 1);
        }
        rest := rest - {key};
      }
      SeenAll(table, hash);
    }
  }
}
