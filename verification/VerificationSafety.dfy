/** What a code can still do, over every serial run and under every store failure. */
module VerificationSafety {
  import opened Base
  import opened VerificationCodes

  /** `clock` is the latest time read, `log` the outcomes of all verifications in order. */
  datatype State = State(store: Store, clock: int, log: seq<Outcome>)

  const INITIAL := State(Store(map[], []), 0, [])

  /** Evict is the cache dropping an entry whose time to live has run out. */
  datatype Op =
    | Send(issue: Issue, sendFaults: SendFaults)
    | Verify(slot: Slot, code: string, now: int, verifyFaults: VerifyFaults)
    | Evict(key: CacheKey)

  /** Serial runs: no call reads an earlier clock than the one before it, and a send reads a later one. */
  predicate Serial(s: State, op: Op) {
    match op
    case Send(i, _) => Normalised(i.slot) && i.now > s.clock
    case Verify(slot, _, now, _) => Normalised(slot) && now >= s.clock
    case Evict(_) => true
  }

  function Next(cfg: Config, s: State, op: Op): State {
    match op
    case Send(i, f) => State(Sent(s.store, cfg, i, f), i.now, s.log)
    case Verify(slot, code, now, f) =>
      var r := Checked(s.store, cfg, slot, code, now, f);
      State(r.0, now, s.log + [r.1])
    case Evict(key) => s.(store := s.store.(cache := s.store.cache - {key}))
  }

  function Exec(cfg: Config, ops: seq<Op>): Option<State> {
    if ops == [] then Some(INITIAL)
    else
      var k := |ops| - 1;
      var before := Exec(cfg, ops[..k]);
      if before.Some? && Serial(before.value, ops[k]) then Some(Next(cfg, before.value, ops[k])) else None
  }

  lemma ExecLast(cfg: Config, ops: seq<Op>, op: Op)
    requires Exec(cfg, ops).Some? && Serial(Exec(cfg, ops).value, op)
    ensures Exec(cfg, ops + [op]) == Some(Next(cfg, Exec(cfg, ops).value, op))
  {
    assert (ops + [op])[..|ops|] == ops;
  }

  lemma ExecInit(cfg: Config, ops: seq<Op>)
    requires Exec(cfg, ops).Some? && ops != []
    ensures var k := |ops| - 1;
      && Exec(cfg, ops[..k]).Some? && Serial(Exec(cfg, ops[..k]).value, ops[k])
      && Exec(cfg, ops).value == Next(cfg, Exec(cfg, ops[..k]).value, ops[k])
  {
  }

  // ---------- Counting outcomes ----------

  function AcceptedCount(log: seq<Outcome>, id: CodeId): nat {
    if log == [] then 0
    else AcceptedCount(log[..|log| - 1], id) + if log[|log| - 1] == Accepted(id) then 1 else 0
  }

  function WrongCount(log: seq<Outcome>, id: CodeId): nat {
    if log == [] then 0
    else
      var last := log[|log| - 1];
      WrongCount(log[..|log| - 1], id) + if last.Wrong? && last.codeId == id then 1 else 0
  }

  lemma CountsLast(log: seq<Outcome>, o: Outcome, id: CodeId)
    ensures AcceptedCount(log + [o], id) == AcceptedCount(log, id) + if o == Accepted(id) then 1 else 0
    ensures WrongCount(log + [o], id) == WrongCount(log, id) + if o.Wrong? && o.codeId == id then 1 else 0
  {
    assert (log + [o])[..|log|] == log;
  }

  // ---------- What the cache holds ----------

  /** The slot a cache entry was written for. */
  function SlotOf(key: CacheKey, e: Entry): Slot { Slot(key.target, e.kind, key.purpose) }

  /** The last issue that reached the cache under a key. */
  function LastWritten(ops: seq<Op>, key: CacheKey): Option<Issue> {
    if ops == [] then None
    else
      var last := ops[|ops| - 1];
      if last.Send? && KeyOf(last.issue.slot) == key && Writes(last.sendFaults) then Some(last.issue)
      else LastWritten(ops[..|ops| - 1], key)
  }

  /** Entry `e` is what issue `i` wrote, apart from the guesses counted since. */
  ghost predicate WrittenBy(cfg: Config, e: Entry, i: Issue) { e.(attempts := 0) == NewEntry(cfg, i) }

  /** A live entry was written by the last issue for its key, and its id is not from the future. */
  ghost predicate Faithful(cfg: Config, ops: seq<Op>, s: State, key: CacheKey) {
    key in s.store.cache ==>
      && var written := LastWritten(ops, key);
      && written.Some? && KeyOf(written.value.slot) == key && Normalised(written.value.slot)
      && WrittenBy(cfg, s.store.cache[key], written.value) && written.value.now <= s.clock
  }

  /** No two keys share a code id. */
  ghost predicate Apart(cache: Cache) {
    forall k, k' :: k in cache && k' in cache && cache[k].codeId == cache[k'].codeId ==> k == k'
  }

  lemma {:induction false} RunFaithful(cfg: Config, ops: seq<Op>, key: CacheKey)
    requires Exec(cfg, ops).Some?
    ensures Faithful(cfg, ops, Exec(cfg, ops).value, key)
  {
    if ops != [] {
      ExecInit(cfg, ops);
      RunFaithful(cfg, ops[..|ops| - 1], key);
    }
  }

  /** A verification writes back the entry under its key with another count, or drops it, and no other entry. */
  lemma RuledEntries(cache: Cache, key: CacheKey, o: Outcome, f: VerifyFaults)
    ensures var cache' := RuledCache(cache, key, o, f);
      && cache'.Keys <= cache.Keys
      && (forall k :: k in cache' ==> cache'[k].(attempts := cache[k].attempts) == cache[k])
      && (forall k :: k in cache && k != key ==> k in cache' && cache'[k] == cache[k])
  {
  }

  lemma NextApart(cfg: Config, s: State, op: Op)
    requires Apart(s.store.cache) && Serial(s, op)
    requires forall k :: k in s.store.cache ==> s.store.cache[k].codeId.nanos <= s.clock
    ensures Apart(Next(cfg, s, op).store.cache)
  {
    if op.Verify? {
      RuledEntries(s.store.cache, KeyOf(op.slot),
                   Ruling(s.store, cfg, op.slot, op.code, op.now, op.verifyFaults), op.verifyFaults);
    }
  }

  lemma {:induction false} RunApart(cfg: Config, ops: seq<Op>)
    requires Exec(cfg, ops).Some?
    ensures Apart(Exec(cfg, ops).value.store.cache)
  {
    if ops != [] {
      ExecInit(cfg, ops);
      var before := ops[..|ops| - 1];
      RunApart(cfg, before);
      forall k | k in Exec(cfg, before).value.store.cache
        ensures Exec(cfg, before).value.store.cache[k].codeId.nanos <= Exec(cfg, before).value.clock
      {
        RunFaithful(cfg, before, k);
      }
      NextApart(cfg, Exec(cfg, before).value, ops[|ops| - 1]);
    }
  }

  /**
   In every serial run, whatever failed in it: with working stores a code is accepted exactly when there is a live
   entry that has not expired and the code is the one last written for that purpose and target.
   */
  lemma {:induction false} AcceptedIsLastWritten(cfg: Config, ops: seq<Op>, slot: Slot, code: string, now: int)
    requires Exec(cfg, ops).Some? && Normalised(slot)
    ensures var s := Exec(cfg, ops).value.store;
      Ruling(s, cfg, slot, code, now, SMOOTH).Accepted?
      <==> && KeyOf(slot) in s.cache && now <= s.cache[KeyOf(slot)].expiresAt
           && LastWritten(ops, KeyOf(slot)).Some? && code == LastWritten(ops, KeyOf(slot)).value.code
  {
    RunFaithful(cfg, ops, KeyOf(slot));
  }

  /**
   In every serial run and under every failure: an acceptance is of the last code written for that slot and not later
   than the configured number of seconds after it was issued; and a code is called expired no more than a second
   early.
   */
  lemma {:induction false} AcceptedInTime(cfg: Config, ops: seq<Op>, slot: Slot, code: string, now: int,
                                          f: VerifyFaults)
    requires Exec(cfg, ops).Some? && Normalised(slot)
    ensures var o := Ruling(Exec(cfg, ops).value.store, cfg, slot, code, now, f);
            var written := LastWritten(ops, KeyOf(slot));
      && (o.Accepted? ==>
            && written.Some? && written.value.slot == slot && written.value.code == code
            && o.codeId == CodeId(written.value.now, written.value.suffix)
            && now <= written.value.now + cfg.expireSeconds * 1_000_000_000)
      && (o.TimedOut? ==>
            written.Some? && now + 1_000_000_000 > written.value.now + cfg.expireSeconds * 1_000_000_000)
  {
    RunFaithful(cfg, ops, KeyOf(slot));
  }

  /** With working stores, the code of a live entry is accepted until a second before its deadline, others are wrong. */
  lemma {:induction false} LiveAccepts(cfg: Config, ops: seq<Op>, slot: Slot, code: string, now: int)
    requires Exec(cfg, ops).Some? && Normalised(slot) && KeyOf(slot) in Exec(cfg, ops).value.store.cache
    requires LastWritten(ops, KeyOf(slot)).Some? ==>
      now + 1_000_000_000 <= LastWritten(ops, KeyOf(slot)).value.now + cfg.expireSeconds * 1_000_000_000
    ensures LastWritten(ops, KeyOf(slot)).Some?
    ensures var o := Ruling(Exec(cfg, ops).value.store, cfg, slot, code, now, SMOOTH);
      if code == LastWritten(ops, KeyOf(slot)).value.code then o.Accepted? else o.Wrong?
  {
    RunFaithful(cfg, ops, KeyOf(slot));
  }

  /** In every serial run no entry is found to be of the other target type. */
  lemma {:induction false} NeverOtherType(cfg: Config, ops: seq<Op>, slot: Slot, code: string, now: int,
                                          f: VerifyFaults)
    requires Exec(cfg, ops).Some? && Normalised(slot)
    ensures Ruling(Exec(cfg, ops).value.store, cfg, slot, code, now, f) != OtherType
  {
    RunFaithful(cfg, ops, KeyOf(slot));
  }

  // ---------- What a verification files ----------

  /** The status of the code's record is set, and nothing else is changed in any record. */
  ghost predicate Marked(before: seq<Record>, after: seq<Record>, id: CodeId, status: CodeStatus) {
    && |after| == |before|
    && forall k :: 0 <= k < |before| ==>
         after[k] == if before[k].codeId == id then before[k].(status := status) else before[k]
  }

  /** One more attempt is counted in the code's record, and nothing else is changed in any record. */
  ghost predicate Counted(before: seq<Record>, after: seq<Record>, id: CodeId) {
    && |after| == |before|
    && forall k :: 0 <= k < |before| ==>
         after[k] == if before[k].codeId == id then before[k].(attempts := before[k].attempts + 1) else before[k]
  }

  /** The entry under the key is gone unless its deletion fails, and no other entry is touched. */
  ghost predicate Deletes(before: Cache, after: Cache, key: CacheKey, fails: bool) {
    && (!fails ==> key !in after)
    && forall k :: k != key ==> (k in after <==> k in before) && (k in after ==> after[k] == before[k])
  }

  /**
   What each answer leaves in the two stores: the record verified, expired or locked and the entry deleted, one more
   attempt counted in both, or nothing at all.
   */
  lemma VerdictFiled(cfg: Config, s: Store, slot: Slot, code: string, now: int, f: VerifyFaults)
    ensures var (s', o) := Checked(s, cfg, slot, code, now, f);
      var key := KeyOf(slot);
      && (o.Accepted? ==>
            Marked(s.records, s'.records, o.codeId, Verified) && Deletes(s.cache, s'.cache, key, f.delFails))
      && (o.TimedOut? ==>
            && (if f.statusFails then s'.records == s.records else Marked(s.records, s'.records, o.codeId, Expired))
            && Deletes(s.cache, s'.cache, key, f.delFails))
      && (o.Wrong? && !o.locked ==>
            && key in s.cache && s'.cache == s.cache[key := s.cache[key].(attempts := s.cache[key].attempts + 1)]
            && (if f.attemptFails then s'.records == s.records else Counted(s.records, s'.records, o.codeId)))
      && (o.Wrong? && o.locked && !f.statusFails ==>
            && Deletes(s.cache, s'.cache, key, f.delFails)
            && exists counted :: Marked(counted, s'.records, o.codeId, Locked)
                 && (if f.attemptFails then counted == s.records else Counted(s.records, counted, o.codeId)))
      && (!o.Accepted? && !o.TimedOut? && !o.Wrong? ==> s' == s)
  {
    var (s', o) := Checked(s, cfg, slot, code, now, f);
    if o.Wrong? && o.locked && !f.statusFails {
      var counted := if f.attemptFails then s.records else AddAttempt(s.records, o.codeId);
      assert Marked(counted, s'.records, o.codeId, Locked);
    }
  }

  // ---------- At most one acceptance, at most so many guesses ----------

  /** The entry's code was never accepted, its wrong guesses are all counted, and it has guesses left. */
  ghost predicate Unspent(cfg: Config, e: Entry, log: seq<Outcome>) {
    && AcceptedCount(log, e.codeId) == 0
    && WrongCount(log, e.codeId) == e.attempts < cfg.maxAttempts
  }

  /** So is the code `id`, where an entry names it. */
  ghost predicate UnspentId(cfg: Config, s: State, id: CodeId) {
    forall key :: key in s.store.cache && s.store.cache[key].codeId == id ==> Unspent(cfg, s.store.cache[key], s.log)
  }

  ghost predicate Within(cfg: Config, log: seq<Outcome>, id: CodeId) {
    AcceptedCount(log, id) <= 1 && WrongCount(log, id) <= cfg.maxAttempts
  }

  /** Nothing was ever decided about an id that is still to come. */
  ghost predicate Unheard(s: State, id: CodeId) {
    id.nanos > s.clock ==> AcceptedCount(s.log, id) == 0 && WrongCount(s.log, id) == 0
  }

  /** The facts about a reachable state that every serial run keeps. */
  ghost predicate Grounded(cfg: Config, s: State) {
    && Apart(s.store.cache)
    && (forall key :: key in s.store.cache ==>
          && s.store.cache[key].codeId.nanos <= s.clock && s.store.cache[key].maxAttempts == cfg.maxAttempts)
    && (forall id :: Unheard(s, id))
  }

  lemma RulingNamesLive(s: Store, cfg: Config, slot: Slot, code: string, now: int, f: VerifyFaults)
    ensures var o := Ruling(s, cfg, slot, code, now, f);
      o.Accepted? || o.Wrong? || o.TimedOut? ==> KeyOf(slot) in s.cache && o.codeId == s.cache[KeyOf(slot)].codeId
  {
  }

  lemma NextUnheard(cfg: Config, s: State, op: Op, id: CodeId)
    requires Unheard(s, id) && Serial(s, op)
    requires forall key :: key in s.store.cache ==> s.store.cache[key].codeId.nanos <= s.clock
    ensures Unheard(Next(cfg, s, op), id)
  {
    if op.Verify? {
      var o := Ruling(s.store, cfg, op.slot, op.code, op.now, op.verifyFaults);
      RulingNamesLive(s.store, cfg, op.slot, op.code, op.now, op.verifyFaults);
      CountsLast(s.log, o, id);
    }
  }

  lemma {:induction false} RunUnheard(cfg: Config, ops: seq<Op>, id: CodeId)
    requires Exec(cfg, ops).Some?
    ensures Unheard(Exec(cfg, ops).value, id)
  {
    if ops != [] {
      ExecInit(cfg, ops);
      var before := ops[..|ops| - 1];
      RunUnheard(cfg, before, id);
      forall k | k in Exec(cfg, before).value.store.cache
        ensures Exec(cfg, before).value.store.cache[k].codeId.nanos <= Exec(cfg, before).value.clock
      {
        RunFaithful(cfg, before, k);
      }
      NextUnheard(cfg, Exec(cfg, before).value, ops[|ops| - 1], id);
    }
  }

  lemma RunGrounded(cfg: Config, ops: seq<Op>)
    requires Exec(cfg, ops).Some?
    ensures Grounded(cfg, Exec(cfg, ops).value)
  {
    RunApart(cfg, ops);
    var s := Exec(cfg, ops).value;
    forall key | key in s.store.cache
      ensures s.store.cache[key].codeId.nanos <= s.clock && s.store.cache[key].maxAttempts == cfg.maxAttempts
    {
      RunFaithful(cfg, ops, key);
    }
    forall id ensures Unheard(s, id) {
      RunUnheard(cfg, ops, id);
    }
  }

  /** The verifications that leave a used-up entry behind: its deletion fails after the code was accepted or locked. */
  predicate Lingers(s: Store, slot: Slot, code: string, now: int, f: VerifyFaults) {
    && f.delFails && !f.loadFails && KeyOf(slot) in s.cache
    && var e := s.cache[KeyOf(slot)];
    && e.kind == slot.kind && now <= e.expiresAt
    && if HashCode(slot, code) == e.hash then !f.markFails else !f.countFails && e.attempts + 1 >= e.maxAttempts
  }

  /** The step leaves the used-up entry of this code behind. */
  predicate LeavesSpent(s: State, op: Op, id: CodeId) {
    op.Verify? && Lingers(s.store, op.slot, op.code, op.now, op.verifyFaults)
    && s.store.cache[KeyOf(op.slot)].codeId == id
  }

  lemma SentUnspent(cfg: Config, s: State, i: Issue, f: SendFaults, id: CodeId)
    requires Grounded(cfg, s) && UnspentId(cfg, s, id) && i.now > s.clock && cfg.maxAttempts >= 1
    ensures UnspentId(cfg, Next(cfg, s, Send(i, f)), id)
  {
    assert Unheard(s, IdOf(i));
  }

  lemma CheckedUnspent(cfg: Config, s: State, slot: Slot, code: string, now: int, f: VerifyFaults, key: CacheKey)
    requires Grounded(cfg, s) && key in Next(cfg, s, Verify(slot, code, now, f)).store.cache && key in s.store.cache
    requires Unspent(cfg, s.store.cache[key], s.log)
    requires key == KeyOf(slot) ==> !Lingers(s.store, slot, code, now, f)
    ensures var s' := Next(cfg, s, Verify(slot, code, now, f)); Unspent(cfg, s'.store.cache[key], s'.log)
  {
    if key != KeyOf(slot) {
      OtherUnspent(cfg, s, slot, code, now, f, key);
    } else {
      OwnUnspent(cfg, s, slot, code, now, f);
    }
  }

  lemma OtherUnspent(cfg: Config, s: State, slot: Slot, code: string, now: int, f: VerifyFaults, key: CacheKey)
    requires Apart(s.store.cache) && key in s.store.cache && key != KeyOf(slot)
    requires Unspent(cfg, s.store.cache[key], s.log)
    ensures var s' := Next(cfg, s, Verify(slot, code, now, f));
      key in s'.store.cache && Unspent(cfg, s'.store.cache[key], s'.log)
  {
    var o, e := Ruling(s.store, cfg, slot, code, now, f), s.store.cache[key];
    RuledEntries(s.store.cache, KeyOf(slot), o, f);
    RulingNamesLive(s.store, cfg, slot, code, now, f);
    assert KeyOf(slot) in s.store.cache ==> s.store.cache[KeyOf(slot)].codeId != e.codeId;
    CountsLast(s.log, o, e.codeId);
  }

  lemma OwnUnspent(cfg: Config, s: State, slot: Slot, code: string, now: int, f: VerifyFaults)
    requires !Lingers(s.store, slot, code, now, f)
    requires KeyOf(slot) in Next(cfg, s, Verify(slot, code, now, f)).store.cache && KeyOf(slot) in s.store.cache
    requires var e := s.store.cache[KeyOf(slot)]; e.maxAttempts == cfg.maxAttempts && Unspent(cfg, e, s.log)
    ensures var s' := Next(cfg, s, Verify(slot, code, now, f)); Unspent(cfg, s'.store.cache[KeyOf(slot)], s'.log)
  {
    OwnEntry(cfg, s.store, slot, code, now, f);
    CountsLast(s.log, Ruling(s.store, cfg, slot, code, now, f), s.store.cache[KeyOf(slot)].codeId);
  }

  /** An entry that stays and is not used up has one more guess counted, or nothing happened to it. */
  lemma OwnEntry(cfg: Config, s: Store, slot: Slot, code: string, now: int, f: VerifyFaults)
    requires !Lingers(s, slot, code, now, f) && KeyOf(slot) in s.cache
    requires KeyOf(slot) in RuledCache(s.cache, KeyOf(slot), Ruling(s, cfg, slot, code, now, f), f)
    ensures var o, e := Ruling(s, cfg, slot, code, now, f), s.cache[KeyOf(slot)];
            var e' := RuledCache(s.cache, KeyOf(slot), o, f)[KeyOf(slot)];
      if !o.Wrong? then !o.Accepted? && e' == e
      else o == Wrong(e.codeId, false) && e' == e.(attempts := e.attempts + 1) && e'.attempts < e.maxAttempts
  {
  }

  lemma LingeringSpent(cfg: Config, s: State, slot: Slot, code: string, now: int, f: VerifyFaults)
    requires Lingers(s.store, slot, code, now, f) && s.store.cache[KeyOf(slot)].maxAttempts == cfg.maxAttempts
    ensures !UnspentId(cfg, Next(cfg, s, Verify(slot, code, now, f)), s.store.cache[KeyOf(slot)].codeId)
  {
    var s' := Next(cfg, s, Verify(slot, code, now, f));
    CountsLast(s.log, Ruling(s.store, cfg, slot, code, now, f), s.store.cache[KeyOf(slot)].codeId);
    assert !Unspent(cfg, s'.store.cache[KeyOf(slot)], s'.log);
  }

  /** A step keeps a code unspent exactly when it does not leave that code's used-up entry behind. */
  lemma UnspentExact(cfg: Config, s: State, op: Op, id: CodeId)
    requires Grounded(cfg, s) && UnspentId(cfg, s, id) && Serial(s, op) && cfg.maxAttempts >= 1
    ensures UnspentId(cfg, Next(cfg, s, op), id) <==> !LeavesSpent(s, op, id)
  {
    match op
    case Send(i, f) => SentUnspent(cfg, s, i, f, id);
    case Verify(slot, code, now, f) =>
      var s' := Next(cfg, s, op);
      RuledEntries(s.store.cache, KeyOf(slot), Ruling(s.store, cfg, slot, code, now, f), f);
      if LeavesSpent(s, op, id) {
        LingeringSpent(cfg, s, slot, code, now, f);
      } else {
        forall key | key in s'.store.cache && s'.store.cache[key].codeId == id
          ensures Unspent(cfg, s'.store.cache[key], s'.log)
        {
          CheckedUnspent(cfg, s, slot, code, now, f, key);
        }
      }
    case Evict(_) =>
  }

  /** Step `k` of the run leaves the used-up entry of this code behind. */
  predicate LingersAt(cfg: Config, ops: seq<Op>, k: nat, id: CodeId)
    requires k < |ops|
  {
    Exec(cfg, ops[..k]).Some? && LeavesSpent(Exec(cfg, ops[..k]).value, ops[k], id)
  }

  /** From step `n` on, the entry of this code was deleted whenever the code was accepted or locked. */
  ghost predicate QuietFrom(cfg: Config, ops: seq<Op>, n: nat, id: CodeId) {
    forall k :: n <= k < |ops| ==> !LingersAt(cfg, ops, k, id)
  }

  lemma QuietInit(cfg: Config, ops: seq<Op>, n: nat, id: CodeId)
    requires QuietFrom(cfg, ops, n, id) && n < |ops|
    ensures QuietFrom(cfg, ops[..|ops| - 1], n, id)
    ensures Exec(cfg, ops[..|ops| - 1]).Some? ==>
      !LeavesSpent(Exec(cfg, ops[..|ops| - 1]).value, ops[|ops| - 1], id)
  {
    var before := ops[..|ops| - 1];
    assert !LingersAt(cfg, ops, |ops| - 1, id);
    forall k | n <= k < |before| ensures !LingersAt(cfg, before, k, id) {
      assert before[..k] == ops[..k];
      assert !LingersAt(cfg, ops, k, id);
    }
  }

  lemma {:induction false} RunUnspent(cfg: Config, ops: seq<Op>, id: CodeId)
    requires Exec(cfg, ops).Some? && QuietFrom(cfg, ops, 0, id) && cfg.maxAttempts >= 1
    ensures UnspentId(cfg, Exec(cfg, ops).value, id)
  {
    if ops != [] {
      ExecInit(cfg, ops);
      QuietInit(cfg, ops, 0, id);
      RunUnspent(cfg, ops[..|ops| - 1], id);
      RunGrounded(cfg, ops[..|ops| - 1]);
      UnspentExact(cfg, Exec(cfg, ops[..|ops| - 1]).value, ops[|ops| - 1], id);
    }
  }

  lemma NextWithin(cfg: Config, s: State, op: Op, id: CodeId)
    requires UnspentId(cfg, s, id) && Within(cfg, s.log, id)
    ensures Within(cfg, Next(cfg, s, op).log, id)
  {
    if op.Verify? {
      RulingNamesLive(s.store, cfg, op.slot, op.code, op.now, op.verifyFaults);
      CountsLast(s.log, Ruling(s.store, cfg, op.slot, op.code, op.now, op.verifyFaults), id);
      if KeyOf(op.slot) in s.store.cache && s.store.cache[KeyOf(op.slot)].codeId == id {
        assert Unspent(cfg, s.store.cache[KeyOf(op.slot)], s.log);
      }
    }
  }

  /**
   In every serial run in which the deletion of this code's used-up entry did not fail, and whatever else failed,
   the code is accepted at most once and compared with at most max_attempts wrong guesses.
   */
  lemma {:induction false} AcceptedAtMostOnce(cfg: Config, ops: seq<Op>, id: CodeId)
    requires Exec(cfg, ops).Some? && QuietFrom(cfg, ops, 0, id) && cfg.maxAttempts >= 1
    ensures AcceptedCount(Exec(cfg, ops).value.log, id) <= 1
    ensures WrongCount(Exec(cfg, ops).value.log, id) <= cfg.maxAttempts
  {
    if ops != [] {
      ExecInit(cfg, ops);
      QuietInit(cfg, ops, 0, id);
      AcceptedAtMostOnce(cfg, ops[..|ops| - 1], id);
      RunUnspent(cfg, ops[..|ops| - 1], id);
      NextWithin(cfg, Exec(cfg, ops[..|ops| - 1]).value, ops[|ops| - 1], id);
    }
  }

  /** A wrong guess locks the code exactly when it is guess number max_attempts, and else leaves it open. */
  lemma {:induction false} LockExact(cfg: Config, ops: seq<Op>, slot: Slot, code: string, now: int, f: VerifyFaults)
    requires Exec(cfg, ops).Some? && cfg.maxAttempts >= 1
    requires var o := Ruling(Exec(cfg, ops).value.store, cfg, slot, code, now, f);
      o.Wrong? && QuietFrom(cfg, ops, 0, o.codeId)
    ensures var s := Exec(cfg, ops).value;
      var o, s' := Ruling(s.store, cfg, slot, code, now, f), Next(cfg, s, Verify(slot, code, now, f));
      && (o.locked <==> WrongCount(s.log, o.codeId) + 1 == cfg.maxAttempts)
      && (!o.locked ==> Opens(s', o.codeId, KeyOf(slot)))
  {
    var s := Exec(cfg, ops).value;
    RunGrounded(cfg, ops);
    RunUnspent(cfg, ops, Ruling(s.store, cfg, slot, code, now, f).codeId);
    assert Unspent(cfg, s.store.cache[KeyOf(slot)], s.log);
  }

  // ---------- What one failed deletion costs ----------

  /** The same verification once more, this time with working stores. */
  function Again(op: Op): Op
    requires op.Verify?
  {
    op.(verifyFaults := SMOOTH)
  }

  /** After a failed deletion the same code is accepted a second time, or the same wrong one compared once too often. */
  lemma RepeatExceeds(cfg: Config, s: State, op: Op, id: CodeId)
    requires Grounded(cfg, s) && UnspentId(cfg, s, id) && LeavesSpent(s, op, id)
    ensures var s' := Next(cfg, s, op);
      && !Within(cfg, Next(cfg, s', Again(op)).log, id)
      && (s.store.cache[KeyOf(op.slot)].hash == HashCode(op.slot, op.code) ==>
            AcceptedCount(Next(cfg, s', Again(op)).log, id) == 2)
      && (s.store.cache[KeyOf(op.slot)].hash != HashCode(op.slot, op.code) ==>
            WrongCount(Next(cfg, s', Again(op)).log, id) == cfg.maxAttempts + 1)
  {
    var s' := Next(cfg, s, op);
    var e := s.store.cache[KeyOf(op.slot)];
    assert Unspent(cfg, e, s.log);
    var o := Ruling(s.store, cfg, op.slot, op.code, op.now, op.verifyFaults);
    CountsLast(s.log, o, id);
    assert s'.log == s.log + [o];
    assert KeyOf(op.slot) in s'.store.cache;
    var o' := Ruling(s'.store, cfg, op.slot, op.code, op.now, SMOOTH);
    assert o' == o;
    CountsLast(s'.log, o', id);
  }

  /** In every serial run, after a failed deletion of an accepted entry the same call is accepted a second time. */
  lemma {:induction false} AcceptedTwice(cfg: Config, ops: seq<Op>, slot: Slot, code: string, now: int, f: VerifyFaults)
    requires Exec(cfg, ops).Some? && Serial(Exec(cfg, ops).value, Verify(slot, code, now, f))
    requires var s := Exec(cfg, ops).value.store;
      Lingers(s, slot, code, now, f) && s.cache[KeyOf(slot)].hash == HashCode(slot, code)
    ensures var id := Exec(cfg, ops).value.store.cache[KeyOf(slot)].codeId;
            var run := ops + [Verify(slot, code, now, f)] + [Verify(slot, code, now, f)];
      Exec(cfg, run).Some? && AcceptedCount(Exec(cfg, run).value.log, id) >= 2
  {
    var op, s := Verify(slot, code, now, f), Exec(cfg, ops).value;
    var id := s.store.cache[KeyOf(slot)].codeId;
    ExecLast(cfg, ops, op);
    ExecLast(cfg, ops + [op], op);
    CountsLast(s.log, Accepted(id), id);
    CountsLast(s.log + [Accepted(id)], Accepted(id), id);
  }

  /** In no continuation that deletes this code's used-up entry are the bounds exceeded. */
  ghost predicate StaysWithin(cfg: Config, ops: seq<Op>, id: CodeId) {
    forall more :: Exec(cfg, ops + more).Some? && QuietFrom(cfg, ops + more, |ops|, id) ==>
      Within(cfg, Exec(cfg, ops + more).value.log, id)
  }

  lemma QuietBoth(cfg: Config, ops: seq<Op>, more: seq<Op>, id: CodeId)
    requires QuietFrom(cfg, ops, 0, id) && QuietFrom(cfg, ops + more, |ops|, id)
    ensures QuietFrom(cfg, ops + more, 0, id)
  {
    forall k | 0 <= k < |ops| ensures !LingersAt(cfg, ops + more, k, id) {
      assert (ops + more)[..k] == ops[..k];
      assert !LingersAt(cfg, ops, k, id);
    }
  }

  lemma QuietLast(cfg: Config, ops: seq<Op>, op: Op, id: CodeId)
    requires Exec(cfg, ops).Some? && !LeavesSpent(Exec(cfg, ops).value, op, id)
    ensures QuietFrom(cfg, ops + [op], |ops|, id)
  {
    assert (ops + [op])[..|ops|] == ops;
  }

  lemma RepeatQuiet(cfg: Config, ops: seq<Op>, op: Op, id: CodeId)
    requires Exec(cfg, ops).Some? && op.Verify? && op.verifyFaults == SMOOTH && Serial(Exec(cfg, ops).value, op)
    requires !Within(cfg, Next(cfg, Exec(cfg, ops).value, op).log, id)
    ensures !StaysWithin(cfg, ops, id)
  {
    ExecLast(cfg, ops, op);
    QuietLast(cfg, ops, op, id);
    assert Exec(cfg, ops + [op]).Some? && QuietFrom(cfg, ops + [op], |ops|, id);
  }

  /**
   While the code's entry was always deleted, one more step leaves the bounds safe in every continuation exactly
   when it does not leave the code's used-up entry behind.
   */
  lemma {:induction false} WithinExact(cfg: Config, ops: seq<Op>, op: Op, id: CodeId)
    requires Exec(cfg, ops).Some? && Serial(Exec(cfg, ops).value, op)
    requires QuietFrom(cfg, ops, 0, id) && cfg.maxAttempts >= 1
    ensures StaysWithin(cfg, ops + [op], id) <==> !LeavesSpent(Exec(cfg, ops).value, op, id)
  {
    var s, run := Exec(cfg, ops).value, ops + [op];
    ExecLast(cfg, ops, op);
    if LeavesSpent(s, op, id) {
      RunGrounded(cfg, ops);
      RunUnspent(cfg, ops, id);
      RepeatExceeds(cfg, s, op, id);
      RepeatQuiet(cfg, run, Again(op), id);
    } else {
      QuietLast(cfg, ops, op, id);
      QuietBoth(cfg, ops, [op], id);
      forall more | Exec(cfg, run + more).Some? && QuietFrom(cfg, run + more, |run|, id)
        ensures Within(cfg, Exec(cfg, run + more).value.log, id)
      {
        QuietBoth(cfg, run, more, id);
        AcceptedAtMostOnce(cfg, run + more, id);
      }
    }
  }

  // ---------- Codes that are over ----------

  /** A live entry names the code and has not expired. */
  ghost predicate Usable(s: State, id: CodeId) {
    exists key :: Opens(s, id, key)
  }

  ghost predicate Opens(s: State, id: CodeId, key: CacheKey) {
    key in s.store.cache && s.store.cache[key].codeId == id && s.clock <= s.store.cache[key].expiresAt
  }

  ghost predicate Over(s: State, id: CodeId) {
    id.nanos <= s.clock && !Usable(s, id)
  }

  ghost predicate SameCounts(s: State, s': State, id: CodeId) {
    AcceptedCount(s'.log, id) == AcceptedCount(s.log, id) && WrongCount(s'.log, id) == WrongCount(s.log, id)
  }

  lemma NextOver(cfg: Config, s: State, op: Op, id: CodeId)
    requires Over(s, id) && Serial(s, op)
    ensures Over(Next(cfg, s, op), id) && SameCounts(s, Next(cfg, s, op), id)
  {
    var s' := Next(cfg, s, op);
    if op.Verify? {
      var o := Ruling(s.store, cfg, op.slot, op.code, op.now, op.verifyFaults);
      RuledEntries(s.store.cache, KeyOf(op.slot), o, op.verifyFaults);
      RulingNamesLive(s.store, cfg, op.slot, op.code, op.now, op.verifyFaults);
      CountsLast(s.log, o, id);
      assert !Opens(s, id, KeyOf(op.slot));
    }
    forall key ensures !Opens(s', id, key) {
      assert !Opens(s, id, key);
    }
  }

  lemma {:induction false} OverForever(cfg: Config, ops: seq<Op>, more: seq<Op>, id: CodeId)
    requires Exec(cfg, ops).Some? && Exec(cfg, ops + more).Some? && Over(Exec(cfg, ops).value, id)
    ensures Over(Exec(cfg, ops + more).value, id)
    ensures SameCounts(Exec(cfg, ops).value, Exec(cfg, ops + more).value, id)
  {
    if more == [] {
      assert ops + more == ops;
    } else {
      var k := |more| - 1;
      assert (ops + more)[..|ops + more| - 1] == ops + more[..k];
      ExecInit(cfg, ops + more);
      OverForever(cfg, ops, more[..k], id);
      NextOver(cfg, Exec(cfg, ops + more[..k]).value, more[k], id);
    }
  }

  /** In no continuation is the code accepted again. */
  ghost predicate NeverAccepted(cfg: Config, ops: seq<Op>, id: CodeId)
    requires Exec(cfg, ops).Some?
  {
    forall more :: Exec(cfg, ops + more).Some? ==>
      AcceptedCount(Exec(cfg, ops + more).value.log, id) == AcceptedCount(Exec(cfg, ops).value.log, id)
  }

  /** The call that presents the code of a live entry. */
  function Present(key: CacheKey, e: Entry, now: int): Op {
    Verify(SlotOf(key, e), e.hash.code, now, SMOOTH)
  }

  lemma PresentAccepted(cfg: Config, ops: seq<Op>, id: CodeId, key: CacheKey) returns (more: seq<Op>)
    requires Exec(cfg, ops).Some? && Opens(Exec(cfg, ops).value, id, key)
    ensures Exec(cfg, ops + more).Some?
    ensures AcceptedCount(Exec(cfg, ops + more).value.log, id) == AcceptedCount(Exec(cfg, ops).value.log, id) + 1
  {
    var s := Exec(cfg, ops).value;
    RunFaithful(cfg, ops, key);
    more := [Present(key, s.store.cache[key], s.clock)];
    ExecLast(cfg, ops, more[0]);
    CountsLast(s.log, Accepted(id), id);
  }

  lemma UsableAccepted(cfg: Config, ops: seq<Op>, id: CodeId, key: CacheKey)
    requires Exec(cfg, ops).Some? && Opens(Exec(cfg, ops).value, id, key)
    ensures !NeverAccepted(cfg, ops, id)
  {
    var more := PresentAccepted(cfg, ops, id, key);
  }

  /**
   After any serial run, whatever failed in it, an issued code is accepted in no continuation exactly when no live,
   unexpired cache entry names it, whatever its record says.
   */
  lemma FinalExact(cfg: Config, ops: seq<Op>, id: CodeId)
    requires Exec(cfg, ops).Some? && id.nanos <= Exec(cfg, ops).value.clock
    ensures NeverAccepted(cfg, ops, id) <==> !Usable(Exec(cfg, ops).value, id)
  {
    var s := Exec(cfg, ops).value;
    if key :| Opens(s, id, key) {
      UsableAccepted(cfg, ops, id, key);
    } else {
      forall more | Exec(cfg, ops + more).Some?
        ensures AcceptedCount(Exec(cfg, ops + more).value.log, id) == AcceptedCount(s.log, id)
      {
        OverForever(cfg, ops, more, id);
      }
    }
  }

  // ---------- What the records say about it ----------

  /** Record `i` belongs to the code and is no longer pending. */
  ghost predicate Settled(s: State, id: CodeId, i: int) {
    0 <= i < |s.store.records| && s.store.records[i].codeId == id && s.store.records[i].status != Pending
  }

  /** A usable code has no record settled otherwise than by cancelling. */
  ghost predicate Closed(s: State, id: CodeId) {
    forall i :: Usable(s, id) && Settled(s, id, i) ==> s.store.records[i].status == Cancelled
  }

  /** A usable code has no record marked expired. */
  ghost predicate Fresh(s: State, id: CodeId) {
    forall i :: Usable(s, id) && Settled(s, id, i) ==> s.store.records[i].status != Expired
  }

  ghost predicate Dated(s: State) {
    forall i :: 0 <= i < |s.store.records| ==> s.store.records[i].codeId.nanos <= s.clock
  }

  /** Every status written to an existing record is the one given, or was there before. */
  lemma CancelledStatus(records: seq<Record>, slot: Slot, i: nat)
    requires i < |records|
    ensures var r := CancelPrevious(records, slot);
      && r[i].codeId == records[i].codeId
      && (r[i].status == records[i].status || r[i].status == Cancelled)
  {
  }

  lemma RuledStatus(records: seq<Record>, o: Outcome, f: VerifyFaults, i: nat)
    requires i < |records|
    ensures var r := RuledRecords(records, o, f);
      && |r| == |records| && r[i].codeId == records[i].codeId
      && (r[i].status == records[i].status
          || o == TimedOut(records[i].codeId)
          || ((o == Accepted(records[i].codeId) || o == Wrong(records[i].codeId, true)) && r[i].status != Expired))
      && (records[i].status != Pending ==> r[i].status != Pending)
  {
  }

  lemma NextDated(cfg: Config, s: State, op: Op)
    requires Dated(s) && Serial(s, op)
    ensures Dated(Next(cfg, s, op)) && |s.store.records| <= |Next(cfg, s, op).store.records|
    ensures forall i :: 0 <= i < |s.store.records| ==>
      && Next(cfg, s, op).store.records[i].codeId == s.store.records[i].codeId
      && (s.store.records[i].status != Pending ==> Next(cfg, s, op).store.records[i].status != Pending)
  {
    var s' := Next(cfg, s, op);
    forall i | 0 <= i < |s.store.records|
      ensures i < |s'.store.records| && s'.store.records[i].codeId == s.store.records[i].codeId
      ensures s.store.records[i].status != Pending ==> s'.store.records[i].status != Pending
    {
      if op.Send? {
        CancelledStatus(s.store.records, op.issue.slot, i);
      } else if op.Verify? {
        var o := Ruling(s.store, cfg, op.slot, op.code, op.now, op.verifyFaults);
        RuledStatus(s.store.records, o, op.verifyFaults, i);
      }
    }
    assert |s.store.records| <= |s'.store.records|;
  }

  /** A code usable after a step was usable before it, or was issued by it. */
  lemma UsableBefore(cfg: Config, s: State, op: Op, id: CodeId)
    requires Serial(s, op) && Usable(Next(cfg, s, op), id)
    ensures Usable(s, id) || (op.Send? && id == IdOf(op.issue))
  {
    var s' := Next(cfg, s, op);
    var key :| Opens(s', id, key);
    if op.Verify? {
      RuledEntries(s.store.cache, KeyOf(op.slot),
                   Ruling(s.store, cfg, op.slot, op.code, op.now, op.verifyFaults), op.verifyFaults);
      assert Opens(s, id, key);
    } else if key in s.store.cache && s'.store.cache[key] == s.store.cache[key] {
      assert Opens(s, id, key);
    }
  }

  lemma SentClosed(cfg: Config, s: State, i: Issue, f: SendFaults, id: CodeId)
    requires Dated(s) && Serial(s, Send(i, f))
    ensures Closed(s, id) ==> Closed(Next(cfg, s, Send(i, f)), id)
    ensures Fresh(s, id) ==> Fresh(Next(cfg, s, Send(i, f)), id)
  {
    var s' := Next(cfg, s, Send(i, f));
    if Usable(s', id) {
      UsableBefore(cfg, s, Send(i, f), id);
      forall k | Settled(s', id, k)
        ensures s'.store.records[k].status == Cancelled
          || (k < |s.store.records| && Settled(s, id, k) && Usable(s, id)
              && s'.store.records[k].status == s.store.records[k].status)
      {
        if k < |s.store.records| {
          CancelledStatus(s.store.records, i.slot, k);
        }
      }
    }
  }

  /** A usable code is not the one a verification just found expired, nor one whose entry it deleted. */
  lemma CheckedUsable(cfg: Config, s: State, slot: Slot, code: string, now: int, f: VerifyFaults, id: CodeId)
    requires Apart(s.store.cache) && now >= s.clock && Usable(Next(cfg, s, Verify(slot, code, now, f)), id)
    ensures Usable(s, id)
    ensures var o := Ruling(s.store, cfg, slot, code, now, f);
      && o != TimedOut(id)
      && (!LeavesSpent(s, Verify(slot, code, now, f), id) ==> o != Accepted(id) && o != Wrong(id, true))
  {
    var s', o := Next(cfg, s, Verify(slot, code, now, f)), Ruling(s.store, cfg, slot, code, now, f);
    RuledEntries(s.store.cache, KeyOf(slot), o, f);
    RulingNamesLive(s.store, cfg, slot, code, now, f);
    var key :| Opens(s', id, key);
    assert Opens(s, id, key);
  }

  lemma CheckedClosed(cfg: Config, s: State, slot: Slot, code: string, now: int, f: VerifyFaults, id: CodeId)
    requires Apart(s.store.cache) && now >= s.clock
    ensures Fresh(s, id) ==> Fresh(Next(cfg, s, Verify(slot, code, now, f)), id)
    ensures Closed(s, id) && !LeavesSpent(s, Verify(slot, code, now, f), id) ==>
      Closed(Next(cfg, s, Verify(slot, code, now, f)), id)
  {
    var s', o := Next(cfg, s, Verify(slot, code, now, f)), Ruling(s.store, cfg, slot, code, now, f);
    if Usable(s', id) {
      CheckedUsable(cfg, s, slot, code, now, f, id);
      forall k | Settled(s', id, k)
        ensures k < |s.store.records| && s.store.records[k].codeId == id
        ensures s'.store.records[k].status == s.store.records[k].status
          || ((o == Accepted(id) || o == Wrong(id, true)) && s'.store.records[k].status != Expired)
      {
        RuledStatus(s.store.records, o, f, k);
      }
    }
  }

  lemma {:induction false} RunDated(cfg: Config, ops: seq<Op>)
    requires Exec(cfg, ops).Some?
    ensures Dated(Exec(cfg, ops).value)
  {
    if ops != [] {
      ExecInit(cfg, ops);
      RunDated(cfg, ops[..|ops| - 1]);
      NextDated(cfg, Exec(cfg, ops[..|ops| - 1]).value, ops[|ops| - 1]);
    }
  }

  lemma EvictClosed(cfg: Config, s: State, key: CacheKey, id: CodeId)
    ensures Closed(s, id) ==> Closed(Next(cfg, s, Evict(key)), id)
    ensures Fresh(s, id) ==> Fresh(Next(cfg, s, Evict(key)), id)
  {
    var s' := Next(cfg, s, Evict(key));
    if Usable(s', id) {
      UsableBefore(cfg, s, Evict(key), id);
      assert forall i :: Settled(s', id, i) ==> Settled(s, id, i);
    }
  }

  lemma NextClosed(cfg: Config, s: State, op: Op, id: CodeId)
    requires Apart(s.store.cache) && Dated(s) && Serial(s, op)
    ensures Fresh(s, id) ==> Fresh(Next(cfg, s, op), id)
    ensures Closed(s, id) && !LeavesSpent(s, op, id) ==> Closed(Next(cfg, s, op), id)
  {
    match op
    case Send(i, f) => SentClosed(cfg, s, i, f, id);
    case Verify(slot, code, now, f) => CheckedClosed(cfg, s, slot, code, now, f, id);
    case Evict(key) => EvictClosed(cfg, s, key, id);
  }

  /** A code whose record is marked expired is not usable, in every serial run. */
  lemma {:induction false} RunFresh(cfg: Config, ops: seq<Op>, id: CodeId)
    requires Exec(cfg, ops).Some?
    ensures Fresh(Exec(cfg, ops).value, id)
  {
    if ops != [] {
      ExecInit(cfg, ops);
      RunFresh(cfg, ops[..|ops| - 1], id);
      RunApart(cfg, ops[..|ops| - 1]);
      RunDated(cfg, ops[..|ops| - 1]);
      NextClosed(cfg, Exec(cfg, ops[..|ops| - 1]).value, ops[|ops| - 1], id);
    }
  }

  lemma {:induction false} RunClosed(cfg: Config, ops: seq<Op>, id: CodeId)
    requires Exec(cfg, ops).Some? && QuietFrom(cfg, ops, 0, id)
    ensures Closed(Exec(cfg, ops).value, id)
  {
    if ops != [] {
      ExecInit(cfg, ops);
      QuietInit(cfg, ops, 0, id);
      RunClosed(cfg, ops[..|ops| - 1], id);
      RunApart(cfg, ops[..|ops| - 1]);
      RunDated(cfg, ops[..|ops| - 1]);
      NextClosed(cfg, Exec(cfg, ops[..|ops| - 1]).value, ops[|ops| - 1], id);
    }
  }

  lemma {:induction false} StaysSettled(cfg: Config, ops: seq<Op>, more: seq<Op>, id: CodeId, i: nat)
    requires Exec(cfg, ops).Some? && Exec(cfg, ops + more).Some?
    requires Settled(Exec(cfg, ops).value, id, i) && Dated(Exec(cfg, ops).value)
    ensures Settled(Exec(cfg, ops + more).value, id, i) && Dated(Exec(cfg, ops + more).value)
  {
    if more == [] {
      assert ops + more == ops;
    } else {
      var k := |more| - 1;
      assert (ops + more)[..|ops + more| - 1] == ops + more[..k];
      ExecInit(cfg, ops + more);
      StaysSettled(cfg, ops, more[..k], id, i);
      NextDated(cfg, Exec(cfg, ops + more[..k]).value, more[k]);
    }
  }

  /** What a settled record needs to be final: nothing if expired, else that no entry was left behind for its code. */
  ghost predicate Concluded(cfg: Config, ops: seq<Op>, id: CodeId, status: CodeStatus)
    requires Exec(cfg, ops).Some?
  {
    match status
    case Pending => false
    case Expired => true
    case Cancelled => !Usable(Exec(cfg, ops).value, id)
    case _ => QuietFrom(cfg, ops, 0, id)
  }

  /**
   After any serial run: a code whose record is expired is never accepted or compared in any continuation, and its
   record is never pending again. So it is with a verified or locked code unless the deletion of its own used-up
   entry failed, and with a cancelled code unless a live, unexpired entry still names it.
   */
  lemma {:induction false} SettledForever(cfg: Config, ops: seq<Op>, more: seq<Op>, id: CodeId, i: nat)
    requires Exec(cfg, ops).Some? && Exec(cfg, ops + more).Some? && Settled(Exec(cfg, ops).value, id, i)
    requires Concluded(cfg, ops, id, Exec(cfg, ops).value.store.records[i].status)
    ensures Settled(Exec(cfg, ops + more).value, id, i)
    ensures SameCounts(Exec(cfg, ops).value, Exec(cfg, ops + more).value, id)
  {
    RunDated(cfg, ops);
    RunFresh(cfg, ops, id);
    var status := Exec(cfg, ops).value.store.records[i].status;
    if status == Verified || status == Locked {
      RunClosed(cfg, ops, id);
    }
    StaysSettled(cfg, ops, more, id, i);
    OverForever(cfg, ops, more, id);
  }
}
