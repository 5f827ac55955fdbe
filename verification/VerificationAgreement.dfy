/** Cache and audit records tell the same story, exactly as long as certain writes do not fail. */
module VerificationAgreement {
  import opened Base
  import opened VerificationCodes
  import opened VerificationSafety

  // ---------- The records, in every serial run ----------

  ghost predicate RecordsInv(records: seq<Record>, clock: int) {
    && (forall i :: 0 <= i < |records| ==>
          Normalised(records[i].slot) && records[i].codeId.nanos == records[i].createdAt <= clock)
    && (forall i, j :: 0 <= i < j < |records| ==> records[i].createdAt < records[j].createdAt)
  }

  /** A pending record is the newest of its slot, so a slot has at most one. */
  ghost predicate PendingNewest(records: seq<Record>) {
    forall i, j :: 0 <= i < j < |records| && records[i].slot == records[j].slot ==> records[i].status != Pending
  }

  /** What no operation changes in a record that stays; `Pending` is never restored. */
  ghost predicate Steady(before: seq<Record>, after: seq<Record>) {
    && |after| == |before|
    && forall i :: 0 <= i < |before| ==> SteadyAt(before[i], after[i])
  }

  ghost predicate SteadyAt(r: Record, r': Record) {
    && r'.codeId == r.codeId && r'.slot == r.slot && r'.createdAt == r.createdAt && r'.hash == r.hash
    && (r'.status == Pending ==> r.status == Pending)
  }

  lemma SteadyKeeps(before: seq<Record>, after: seq<Record>, clock: int)
    requires Steady(before, after) && RecordsInv(before, clock) && PendingNewest(before)
    ensures RecordsInv(after, clock) && PendingNewest(after)
  {
    assert forall i :: 0 <= i < |before| ==> SteadyAt(before[i], after[i]);
    forall i, j | 0 <= i < j < |after| && after[i].slot == after[j].slot ensures after[i].status != Pending {
      assert before[i].slot == before[j].slot;
    }
  }

  lemma {:induction false} LatestIsNewest(records: seq<Record>, slot: Slot, i: nat)
    requires i < |records| && records[i].slot == slot
    requires forall i, j :: 0 <= i < j < |records| ==> records[i].createdAt < records[j].createdAt
    ensures GetLatest(records, slot).Some? && GetLatest(records, slot).value >= i
  {
    var k := |records| - 1;
    if i < k {
      LatestIsNewest(records[..k], slot, i);
    }
  }

  lemma PendingIsLatest(records: seq<Record>, slot: Slot, clock: int, i: nat)
    requires RecordsInv(records, clock) && PendingNewest(records)
    requires i < |records| && records[i].slot == slot && records[i].status == Pending
    ensures GetLatest(records, slot) == Some(i)
  {
    LatestIsNewest(records, slot, i);
    var latest := GetLatest(records, slot).value;
    assert records[latest].slot == records[i].slot;
  }

  /** Cancelling rewrites pending records of the slot only. */
  lemma CancelOnlyPending(records: seq<Record>, slot: Slot, clock: int)
    requires RecordsInv(records, clock)
    ensures var r := CancelPrevious(records, slot);
      && Steady(records, r)
      && forall i :: 0 <= i < |r| && r[i].slot != slot ==> r[i] == records[i]
  {
  }

  /** Cancelling leaves no pending record in the slot and touches no other slot. */
  lemma CancelClears(records: seq<Record>, slot: Slot, clock: int)
    requires RecordsInv(records, clock) && PendingNewest(records)
    ensures var r := CancelPrevious(records, slot);
      && RecordsInv(r, clock) && PendingNewest(r) && Steady(records, r)
      && (forall i :: 0 <= i < |r| && r[i].slot == slot ==> r[i].status != Pending)
      && (forall i :: 0 <= i < |r| && r[i].slot != slot ==> r[i] == records[i])
  {
    var r := CancelPrevious(records, slot);
    CancelOnlyPending(records, slot, clock);
    SteadyKeeps(records, r, clock);
    forall i | 0 <= i < |r| && r[i].slot == slot ensures r[i].status != Pending {
      assert SteadyAt(records[i], r[i]);
      if records[i].status == Pending {
        PendingIsLatest(records, slot, clock, i);
      }
    }
  }

  lemma AppendKeeps(records: seq<Record>, r: Record, clock: int)
    requires RecordsInv(records, clock) && PendingNewest(records)
    requires Normalised(r.slot) && r.codeId.nanos == r.createdAt > clock
    requires forall i :: 0 <= i < |records| && records[i].slot == r.slot ==> records[i].status != Pending
    ensures RecordsInv(records + [r], r.createdAt) && PendingNewest(records + [r])
  {
  }

  lemma NoId(records: seq<Record>, clock: int, i: Issue)
    requires RecordsInv(records, clock) && i.now > clock
    ensures !HasId(records, IdOf(i))
  {
  }

  lemma SentRecordsKeep(records: seq<Record>, i: Issue, f: SendFaults, clock: int)
    requires RecordsInv(records, clock) && PendingNewest(records) && Normalised(i.slot) && i.now > clock
    ensures RecordsInv(SentRecords(records, i, f), i.now) && PendingNewest(SentRecords(records, i, f))
  {
    CancelClears(records, i.slot, clock);
    var cancelled := CancelPrevious(records, i.slot);
    assert RecordsInv(cancelled, i.now);
    NoId(records, clock, i);
    AppendKeeps(cancelled, NewRecord(i, if f.dispatchFails && !f.statusFails then Cancelled else Pending), clock);
  }

  lemma RuledSteady(records: seq<Record>, o: Outcome, f: VerifyFaults)
    ensures Steady(records, RuledRecords(records, o, f))
  {
  }

  lemma {:induction false} RunRecords(cfg: Config, ops: seq<Op>)
    requires Exec(cfg, ops).Some?
    ensures var s := Exec(cfg, ops).value; RecordsInv(s.store.records, s.clock) && PendingNewest(s.store.records)
  {
    if ops != [] {
      ExecInit(cfg, ops);
      var s, op := Exec(cfg, ops[..|ops| - 1]).value, ops[|ops| - 1];
      RunRecords(cfg, ops[..|ops| - 1]);
      match op
      case Send(i, f) => SentRecordsKeep(s.store.records, i, f, s.clock);
      case Verify(slot, code, now, f) =>
        RuledSteady(s.store.records, Ruling(s.store, cfg, slot, code, now, f), f);
        assert RecordsInv(s.store.records, now);
        SteadyKeeps(s.store.records, Exec(cfg, ops).value.store.records, now);
      case Evict(_) =>
    }
  }

  // ---------- Agreement ----------

  /** Record `i` is the pending record the cache entry stands for. */
  ghost predicate Mirrors(cfg: Config, records: seq<Record>, key: CacheKey, e: Entry, i: int) {
    && 0 <= i < |records|
    && var r := records[i];
    && r.codeId == e.codeId && r.status == Pending && r.slot == SlotOf(key, e)
    && r.hash == e.hash && r.attempts == e.attempts
    && e.attempts < e.maxAttempts == cfg.maxAttempts
  }

  ghost predicate HasMirror(cfg: Config, s: Store, key: CacheKey)
    requires key in s.cache
  {
    exists i :: Mirrors(cfg, s.records, key, s.cache[key], i)
  }

  ghost predicate Mirrored(cfg: Config, s: Store) {
    forall key :: key in s.cache ==> HasMirror(cfg, s, key)
  }

  // ---------- What holds of entries and records in every serial run ----------

  /** A record with the entry's id is of the same issue and counts no more guesses than the entry. */
  ghost predicate Related(key: CacheKey, e: Entry, r: Record) {
    r.codeId == e.codeId ==> r.slot == SlotOf(key, e) && r.hash == e.hash && r.attempts <= e.attempts
  }

  ghost predicate Kin(s: Store) {
    forall key, i :: key in s.cache && 0 <= i < |s.records| ==> Related(key, s.cache[key], s.records[i])
  }

  ghost predicate Sane(cfg: Config, s: State) {
    && RecordsInv(s.store.records, s.clock) && PendingNewest(s.store.records)
    && Grounded(cfg, s) && Kin(s.store)
  }

  lemma SentKin(cfg: Config, s: State, i: Issue, f: SendFaults)
    requires Sane(cfg, s) && Serial(s, Send(i, f))
    ensures Kin(Sent(s.store, cfg, i, f))
  {
    var s' := Sent(s.store, cfg, i, f);
    CancelOnlyPending(s.store.records, i.slot, s.clock);
    forall key, k | key in s'.cache && 0 <= k < |s'.records| ensures Related(key, s'.cache[key], s'.records[k]) {
      if k < |s.store.records| {
        assert SteadyAt(s.store.records[k], CancelPrevious(s.store.records, i.slot)[k]);
        if key in s.store.cache && s'.cache[key] == s.store.cache[key] {
          assert Related(key, s.store.cache[key], s.store.records[k]);
        }
      }
    }
  }

  lemma RuledKin(cfg: Config, s: State, slot: Slot, code: string, now: int, f: VerifyFaults)
    requires Sane(cfg, s)
    ensures Kin(Checked(s.store, cfg, slot, code, now, f).0)
  {
    var s', o := Checked(s.store, cfg, slot, code, now, f).0, Ruling(s.store, cfg, slot, code, now, f);
    RuledEntries(s.store.cache, KeyOf(slot), o, f);
    RulingNamesLive(s.store, cfg, slot, code, now, f);
    RuledSteady(s.store.records, o, f);
    forall key, k | key in s'.cache && 0 <= k < |s'.records| ensures Related(key, s'.cache[key], s'.records[k]) {
      assert SteadyAt(s.store.records[k], s'.records[k]);
      assert Related(key, s.store.cache[key], s.store.records[k]);
      if key != KeyOf(slot) && KeyOf(slot) in s.store.cache {
        assert s.store.cache[key].codeId != s.store.cache[KeyOf(slot)].codeId;
      }
    }
  }

  lemma {:induction false} RunSane(cfg: Config, ops: seq<Op>)
    requires Exec(cfg, ops).Some?
    ensures Sane(cfg, Exec(cfg, ops).value)
  {
    RunRecords(cfg, ops);
    RunGrounded(cfg, ops);
    if ops != [] {
      ExecInit(cfg, ops);
      RunSane(cfg, ops[..|ops| - 1]);
      var s, op := Exec(cfg, ops[..|ops| - 1]).value, ops[|ops| - 1];
      match op
      case Send(i, f) => SentKin(cfg, s, i, f);
      case Verify(slot, code, now, f) => RuledKin(cfg, s, slot, code, now, f);
      case Evict(_) =>
    }
  }

  // ---------- Sends ----------

  /**
   The sends that separate the stores: the old code is cancelled and its live entry cannot be overwritten; or the new
   entry is written, has no record or one that is cancelled, and cannot be deleted.
   */
  predicate Strands(s: Store, i: Issue, f: SendFaults) {
    && !f.limited && !f.cancelFails
    && if f.cacheFails then KeyOf(i.slot) in s.cache
       else if f.expireFails || f.createFails then f.delFails
       else f.dispatchFails && f.delFails && !f.statusFails
  }

  /** What a send does under other keys keeps every entry's standing. */
  lemma OtherKeySent(cfg: Config, s: State, i: Issue, f: SendFaults, key: CacheKey)
    requires Sane(cfg, s) && Serial(s, Send(i, f)) && key in s.store.cache && key != KeyOf(i.slot)
    ensures key in Sent(s.store, cfg, i, f).cache
    ensures HasMirror(cfg, Sent(s.store, cfg, i, f), key) <==> HasMirror(cfg, s.store, key)
  {
    var s', e := Sent(s.store, cfg, i, f), s.store.cache[key];
    var cancelled := CancelPrevious(s.store.records, i.slot);
    CancelOnlyPending(s.store.records, i.slot, s.clock);
    forall k ensures Mirrors(cfg, s'.records, key, e, k) <==> Mirrors(cfg, s.store.records, key, e, k) {
      if 0 <= k < |s.store.records| {
        assert SteadyAt(s.store.records[k], cancelled[k]);
      }
    }
  }

  /** An entry just written has its record exactly when the send did not strand it. */
  lemma WrittenMirror(cfg: Config, s: State, i: Issue, f: SendFaults)
    requires Sane(cfg, s) && Serial(s, Send(i, f)) && cfg.maxAttempts >= 1
    requires Writes(f) && KeyOf(i.slot) in Sent(s.store, cfg, i, f).cache
    ensures HasMirror(cfg, Sent(s.store, cfg, i, f), KeyOf(i.slot)) <==> !Strands(s.store, i, f)
  {
    var s', key := Sent(s.store, cfg, i, f), KeyOf(i.slot);
    CancelOnlyPending(s.store.records, i.slot, s.clock);
    NoId(s.store.records, s.clock, i);
    forall k | 0 <= k < |s.store.records| ensures !Mirrors(cfg, s'.records, key, s'.cache[key], k) {
      assert SteadyAt(s.store.records[k], CancelPrevious(s.store.records, i.slot)[k]);
    }
    if !Strands(s.store, i, f) {
      assert Mirrors(cfg, s'.records, key, s'.cache[key], |s.store.records|);
    } else {
      assert !Mirrors(cfg, s'.records, key, s'.cache[key], |s.store.records|);
    }
  }

  /** An entry that could not be overwritten has lost its record. */
  lemma StrandedMirror(cfg: Config, s: State, i: Issue, f: SendFaults)
    requires Sane(cfg, s) && Serial(s, Send(i, f)) && Strands(s.store, i, f) && f.cacheFails
    ensures KeyOf(i.slot) in Sent(s.store, cfg, i, f).cache
    ensures !HasMirror(cfg, Sent(s.store, cfg, i, f), KeyOf(i.slot))
  {
    var s', key := Sent(s.store, cfg, i, f), KeyOf(i.slot);
    CancelClears(s.store.records, i.slot, s.clock);
    forall k ensures !Mirrors(cfg, s'.records, key, s'.cache[key], k) {
      if 0 <= k < |s'.records| {
        assert Normalised(s'.records[k].slot);
      }
    }
  }

  // ---------- Verifications ----------

  /**
   The verifications that separate the stores: the record is settled and the entry cannot be deleted, a locked entry
   cannot be deleted, or a wrong guess is counted in the cache only.
   */
  predicate Skews(s: Store, slot: Slot, code: string, now: int, f: VerifyFaults) {
    && !f.loadFails && KeyOf(slot) in s.cache
    && var e := s.cache[KeyOf(slot)];
    && e.kind == slot.kind
    && if now > e.expiresAt then f.delFails && !f.statusFails
       else if HashCode(slot, code) == e.hash then f.delFails && !f.markFails
       else !f.countFails && if e.attempts + 1 >= e.maxAttempts then f.delFails else f.attemptFails
  }

  lemma OtherKeyRuled(cfg: Config, s: State, slot: Slot, code: string, now: int, f: VerifyFaults, key: CacheKey)
    requires Sane(cfg, s) && key in s.store.cache && key != KeyOf(slot)
    ensures var s' := Checked(s.store, cfg, slot, code, now, f).0;
      key in s'.cache && (HasMirror(cfg, s', key) <==> HasMirror(cfg, s.store, key))
  {
    var s', o := Checked(s.store, cfg, slot, code, now, f).0, Ruling(s.store, cfg, slot, code, now, f);
    var e := s.store.cache[key];
    RuledEntries(s.store.cache, KeyOf(slot), o, f);
    RulingNamesLive(s.store, cfg, slot, code, now, f);
    if KeyOf(slot) in s.store.cache {
      assert s.store.cache[KeyOf(slot)].codeId != e.codeId;
    }
    forall k ensures Mirrors(cfg, s'.records, key, e, k) <==> Mirrors(cfg, s.store.records, key, e, k) {
    }
  }

  /** The record with the entry's id stands for the entry after a verification iff it did before and none skewed it. */
  lemma OwnRecordRuled(cfg: Config, s: State, slot: Slot, code: string, now: int, f: VerifyFaults, k: nat)
    requires Sane(cfg, s) && KeyOf(slot) in Checked(s.store, cfg, slot, code, now, f).0.cache
    requires k < |s.store.records|
    ensures var s', key := Checked(s.store, cfg, slot, code, now, f).0, KeyOf(slot);
      Mirrors(cfg, s'.records, key, s'.cache[key], k)
      <==> Mirrors(cfg, s.store.records, key, s.store.cache[key], k) && !Skews(s.store, slot, code, now, f)
  {
    var o := Ruling(s.store, cfg, slot, code, now, f);
    RuledEntries(s.store.cache, KeyOf(slot), o, f);
    assert Related(KeyOf(slot), s.store.cache[KeyOf(slot)], s.store.records[k]);
  }

  lemma OwnKeyRuled(cfg: Config, s: State, slot: Slot, code: string, now: int, f: VerifyFaults)
    requires Sane(cfg, s) && KeyOf(slot) in Checked(s.store, cfg, slot, code, now, f).0.cache
    ensures KeyOf(slot) in s.store.cache
    ensures HasMirror(cfg, Checked(s.store, cfg, slot, code, now, f).0, KeyOf(slot))
      <==> HasMirror(cfg, s.store, KeyOf(slot)) && !Skews(s.store, slot, code, now, f)
  {
    var s', key := Checked(s.store, cfg, slot, code, now, f).0, KeyOf(slot);
    var o := Ruling(s.store, cfg, slot, code, now, f);
    RuledEntries(s.store.cache, key, o, f);
    RuledSteady(s.store.records, o, f);
    var skewed := Skews(s.store, slot, code, now, f);
    forall k ensures Mirrors(cfg, s'.records, key, s'.cache[key], k)
      <==> Mirrors(cfg, s.store.records, key, s.store.cache[key], k) && !skewed
    {
      if 0 <= k < |s.store.records| {
        OwnRecordRuled(cfg, s, slot, code, now, f, k);
      }
    }
  }

  lemma SkewedStays(cfg: Config, s: Store, slot: Slot, code: string, now: int, f: VerifyFaults)
    requires Skews(s, slot, code, now, f)
    ensures KeyOf(slot) in Checked(s, cfg, slot, code, now, f).0.cache
  {
  }

  // ---------- Steps ----------

  /** A send that keeps the stores in agreement where they agreed is exactly one that does not strand an entry. */
  lemma SendExact(cfg: Config, s: State, i: Issue, f: SendFaults)
    requires Sane(cfg, s) && Mirrored(cfg, s.store) && Serial(s, Send(i, f)) && cfg.maxAttempts >= 1
    ensures Mirrored(cfg, Sent(s.store, cfg, i, f)) <==> !Strands(s.store, i, f)
  {
    var s', own := Sent(s.store, cfg, i, f), KeyOf(i.slot);
    forall key | key in s'.cache && key != own ensures HasMirror(cfg, s', key) {
      OtherKeySent(cfg, s, i, f, key);
    }
    NoId(s.store.records, s.clock, i);
    if Writes(f) && own in s'.cache {
      WrittenMirror(cfg, s, i, f);
    } else if Strands(s.store, i, f) {
      StrandedMirror(cfg, s, i, f);
    } else if own in s'.cache {
      assert s' == s.store;
    }
  }

  /** A verification that keeps the stores in agreement where they agreed is exactly one that does not skew an entry. */
  lemma VerifyExact(cfg: Config, s: State, slot: Slot, code: string, now: int, f: VerifyFaults)
    requires Sane(cfg, s) && Mirrored(cfg, s.store)
    ensures Mirrored(cfg, Checked(s.store, cfg, slot, code, now, f).0) <==> !Skews(s.store, slot, code, now, f)
  {
    var s' := Checked(s.store, cfg, slot, code, now, f).0;
    RuledEntries(s.store.cache, KeyOf(slot), Ruling(s.store, cfg, slot, code, now, f), f);
    if Skews(s.store, slot, code, now, f) {
      SkewedStays(cfg, s.store, slot, code, now, f);
    }
    if KeyOf(slot) in s'.cache {
      OwnKeyRuled(cfg, s, slot, code, now, f);
    }
    forall key | key in s'.cache && key != KeyOf(slot) ensures HasMirror(cfg, s', key) {
      OtherKeyRuled(cfg, s, slot, code, now, f, key);
    }
  }

  // ---------- Whole runs, key by key ----------

  /** The step decides anew whether the key's entry has its record: it writes the entry, or strands it. */
  predicate Resets(s: State, op: Op, key: CacheKey) {
    op.Send? && KeyOf(op.issue.slot) == key && (Writes(op.sendFaults) || Strands(s.store, op.issue, op.sendFaults))
  }

  predicate SkewsKey(s: State, op: Op, key: CacheKey) {
    op.Verify? && KeyOf(op.slot) == key && Skews(s.store, op.slot, op.code, op.now, op.verifyFaults)
  }

  /** The last send that wrote or should have written the key's entry stranded it, or a verification since skewed it. */
  predicate Separated(cfg: Config, ops: seq<Op>, key: CacheKey) {
    ops != [] &&
    var k := |ops| - 1;
    var before := Exec(cfg, ops[..k]);
    before.Some? &&
    if Resets(before.value, ops[k], key) then Strands(before.value.store, ops[k].issue, ops[k].sendFaults)
    else Separated(cfg, ops[..k], key) || SkewsKey(before.value, ops[k], key)
  }

  lemma MirrorStep(cfg: Config, s: State, op: Op, key: CacheKey)
    requires Sane(cfg, s) && Serial(s, op) && cfg.maxAttempts >= 1 && key in Next(cfg, s, op).store.cache
    ensures Resets(s, op, key) ==>
      (HasMirror(cfg, Next(cfg, s, op).store, key) <==> !Strands(s.store, op.issue, op.sendFaults))
    ensures !Resets(s, op, key) ==>
      && key in s.store.cache
      && (HasMirror(cfg, Next(cfg, s, op).store, key)
          <==> HasMirror(cfg, s.store, key) && !SkewsKey(s, op, key))
  {
    match op
    case Send(i, f) =>
      if KeyOf(i.slot) != key {
        OtherKeySent(cfg, s, i, f, key);
      } else if Writes(f) {
        WrittenMirror(cfg, s, i, f);
      } else if Strands(s.store, i, f) {
        StrandedMirror(cfg, s, i, f);
      } else {
        assert Sent(s.store, cfg, i, f) == s.store;
      }
    case Verify(slot, code, now, f) =>
      RuledEntries(s.store.cache, KeyOf(slot), Ruling(s.store, cfg, slot, code, now, f), f);
      if KeyOf(slot) != key {
        OtherKeyRuled(cfg, s, slot, code, now, f, key);
      } else {
        OwnKeyRuled(cfg, s, slot, code, now, f);
      }
    case Evict(_) =>
      var s' := Next(cfg, s, op);
      assert s'.store.cache[key] == s.store.cache[key];
      assert forall i :: Mirrors(cfg, s'.store.records, key, s'.store.cache[key], i)
                    <==> Mirrors(cfg, s.store.records, key, s.store.cache[key], i);
  }

  lemma {:induction false} MirrorExact(cfg: Config, ops: seq<Op>, key: CacheKey)
    requires Exec(cfg, ops).Some? && cfg.maxAttempts >= 1 && key in Exec(cfg, ops).value.store.cache
    ensures HasMirror(cfg, Exec(cfg, ops).value.store, key) <==> !Separated(cfg, ops, key)
  {
    if ops != [] {
      ExecInit(cfg, ops);
      var before, op := ops[..|ops| - 1], ops[|ops| - 1];
      RunSane(cfg, before);
      MirrorStep(cfg, Exec(cfg, before).value, op, key);
      if !Resets(Exec(cfg, before).value, op, key) {
        MirrorExact(cfg, before, key);
      }
    }
  }

  /**
   In every serial run, whatever failed: a slot has at most one pending record and it is the newest, and a live cache
   entry stands for exactly that record, with the same digest and the same number of attempts, exactly when neither
   the last send for its key stranded it nor a verification since skewed it.
   */
  lemma {:induction false} StoresAgree(cfg: Config, ops: seq<Op>, key: CacheKey)
    requires Exec(cfg, ops).Some? && cfg.maxAttempts >= 1
    ensures var records := Exec(cfg, ops).value.store.records;
      forall i, j :: 0 <= i < j < |records| && records[i].slot == records[j].slot ==> records[i].status != Pending
    ensures var s := Exec(cfg, ops).value.store;
      key in s.cache ==>
        ((exists i :: Mirrors(cfg, s.records, key, s.cache[key], i)) <==> !Separated(cfg, ops, key))
  {
    RunRecords(cfg, ops);
    if key in Exec(cfg, ops).value.store.cache {
      MirrorExact(cfg, ops, key);
    }
  }

  /** Record `k` is the pending record of the slot, the newest there, and `code` is its code. */
  ghost predicate Answered(records: seq<Record>, slot: Slot, code: string, k: int) {
    && 0 <= k < |records| && records[k].slot == slot && records[k].status == Pending
    && records[k].hash == HashCode(slot, code)
    && forall j :: k < j < |records| ==> records[j].slot != slot
  }

  /**
   While the stores agree about the key, a code is accepted exactly when a live entry has not expired and the code is
   that of the slot's newest record, which is pending.
   */
  lemma {:induction false} AcceptedExact(cfg: Config, ops: seq<Op>, slot: Slot, code: string, now: int)
    requires Exec(cfg, ops).Some? && !Separated(cfg, ops, KeyOf(slot)) && cfg.maxAttempts >= 1 && Normalised(slot)
    ensures var s := Exec(cfg, ops).value.store;
      Ruling(s, cfg, slot, code, now, SMOOTH).Accepted?
      <==> && KeyOf(slot) in s.cache && now <= s.cache[KeyOf(slot)].expiresAt
           && exists k :: Answered(s.records, slot, code, k)
  {
    RunRecords(cfg, ops);
    var s := Exec(cfg, ops).value.store;
    if KeyOf(slot) in s.cache {
      MirrorExact(cfg, ops, KeyOf(slot));
      var e := s.cache[KeyOf(slot)];
      var m :| Mirrors(cfg, s.records, KeyOf(slot), e, m);
      assert Normalised(s.records[m].slot);
      assert s.records[m].slot == slot;
      if HashCode(slot, code) == e.hash {
        assert Answered(s.records, slot, code, m);
      }
      forall k | Answered(s.records, slot, code, k) ensures k == m {
        assert s.records[k].slot == s.records[m].slot;
      }
    }
  }

  // ---------- What a send leaves ----------

  /** The call gets as far as dispatching the code. */
  predicate Dispatches(f: SendFaults) { Writes(f) && !f.expireFails && !f.createFails }

  /** The record of an issue. */
  ghost predicate RecordOf(r: Record, i: Issue, status: CodeStatus) {
    && r.codeId == CodeId(i.now, i.suffix) && r.slot == i.slot
    && r.hash == Digest(i.slot.purpose, i.slot.target, i.code)
    && r.status == status && r.attempts == 0 && r.createdAt == i.now
  }

  /**
   Past the cancellation no older code of the slot is pending. A code that is dispatched has a pending record and a
   live entry; one whose dispatch fails has a cancelled record, and one that fails earlier has none, and neither has
   an entry, as far as the clean-up works.
   */
  lemma SendFiled(cfg: Config, s: State, i: Issue, f: SendFaults)
    requires Sane(cfg, s) && Serial(s, Send(i, f))
    ensures var n, s' := |s.store.records|, Sent(s.store, cfg, i, f);
      && n <= |s'.records| <= n + 1
      && (f.limited || f.cancelFails ==> s' == s.store)
      && (!f.limited && !f.cancelFails ==>
            forall k :: 0 <= k < n && s'.records[k].slot == i.slot ==> s'.records[k].status != Pending)
      && (|s'.records| == n + 1 <==> Dispatches(f))
      && (Dispatches(f) && !f.dispatchFails ==>
            RecordOf(s'.records[n], i, Pending) && KeyOf(i.slot) in s'.cache
            && s'.cache[KeyOf(i.slot)].codeId == CodeId(i.now, i.suffix))
      && (Dispatches(f) && f.dispatchFails ==>
            RecordOf(s'.records[n], i, if f.statusFails then Pending else Cancelled))
      && (Writes(f) && (!Dispatches(f) || f.dispatchFails) && !f.delFails ==> KeyOf(i.slot) !in s'.cache)
  {
    CancelClears(s.store.records, i.slot, s.clock);
    NoId(s.store.records, s.clock, i);
  }

  /** Right after a code was dispatched, it is accepted until a second before its deadline, and every other is wrong. */
  lemma {:induction false} SentIsAccepted(cfg: Config, ops: seq<Op>, i: Issue, f: SendFaults, code: string, now: int)
    requires Exec(cfg, ops).Some? && Serial(Exec(cfg, ops).value, Send(i, f))
    requires Dispatches(f) && !f.dispatchFails
    requires now + 1_000_000_000 <= i.now + cfg.expireSeconds * 1_000_000_000
    ensures Exec(cfg, ops + [Send(i, f)]).Some?
    ensures var o := Ruling(Exec(cfg, ops + [Send(i, f)]).value.store, cfg, i.slot, code, now, SMOOTH);
      if code == i.code then o == Accepted(CodeId(i.now, i.suffix)) else o.Wrong?
  {
    RunSane(cfg, ops);
    SendFiled(cfg, Exec(cfg, ops).value, i, f);
    ExecLast(cfg, ops, Send(i, f));
    assert LastWritten(ops + [Send(i, f)], KeyOf(i.slot)) == Some(i);
    LiveAccepts(cfg, ops + [Send(i, f)], i.slot, code, now);
  }

  /** The development code is taken exactly where there is no entry. */
  lemma BypassExact(cfg: Config, s: Store, slot: Slot, code: string, now: int, f: VerifyFaults)
    ensures Ruling(s, cfg, slot, code, now, f) == Bypassed
      <==> !f.loadFails && CacheKey(slot.purpose, slot.target) !in s.cache && cfg.devCode == Some(code)
  {
  }

  /** Without an entry, the answer reports the status of the slot's newest record, if there is one. */
  lemma {:induction false} MissingExact(cfg: Config, ops: seq<Op>, slot: Slot, code: string, now: int, k: nat)
    requires Exec(cfg, ops).Some? && KeyOf(slot) !in Exec(cfg, ops).value.store.cache && cfg.devCode != Some(code)
    ensures var s := Exec(cfg, ops).value.store;
      && ((forall j :: 0 <= j < |s.records| ==> s.records[j].slot != slot) ==>
            Ruling(s, cfg, slot, code, now, SMOOTH) == Missing(None))
      && (k < |s.records| && s.records[k].slot == slot
          && (forall j :: k < j < |s.records| ==> s.records[j].slot != slot) ==>
            Ruling(s, cfg, slot, code, now, SMOOTH) == Missing(Some(s.records[k].status)))
  {
    RunRecords(cfg, ops);
    var records := Exec(cfg, ops).value.store.records;
    if k < |records| && records[k].slot == slot {
      LatestIsNewest(records, slot, k);
    }
  }

  // ---------- A run that separates them ----------

  const FINE := SendFaults(false, false, false, false, false, false, false, false)

  /**
   For every slot: a code is sent, a second send fails to write the cache, and the first code, whose record is
   cancelled by then, is accepted.
   */
  lemma StrandedRun(cfg: Config, slot: Slot, code: string) returns (ops: seq<Op>)
    requires Normalised(slot) && cfg.expireSeconds >= 1
    ensures Exec(cfg, ops).Some? && Separated(cfg, ops, KeyOf(slot))
    ensures var s := Exec(cfg, ops).value;
      && |s.store.records| == 1 && s.store.records[0].status == Cancelled
      && Ruling(s.store, cfg, slot, code, s.clock, SMOOTH) == Accepted(s.store.records[0].codeId)
  {
    var first := Send(Issue(slot, "a", code, 1), FINE);
    var second := Send(Issue(slot, "b", code, 2), FINE.(cacheFails := true));
    assert Exec(cfg, []) == Some(INITIAL);
    ExecLast(cfg, [], first);
    assert [] + [first] == [first];
    var s := Exec(cfg, [first]).value;
    assert s.store.records == [NewRecord(first.issue, Pending)];
    assert GetLatest(s.store.records, slot) == Some(0) by {
      assert s.store.records[..0] == [];
    }
    ops := [first] + [second];
    ExecLast(cfg, [first], second);
    assert ops[..1] == [first];
  }
}
